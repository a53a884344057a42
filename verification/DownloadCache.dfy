// The verified download cache over its directory, with sessions, I/O errors and crashes.
module DownloadCache {
  import opened Bytes

  type Digest = string
  type Token = string

  datatype Spec = Spec(length: nat, digest: Digest)

  /** A file's content; what is not durable may be anything after a crash. */
  datatype Inode = Inode(content: seq<byte>, durable: bool)

  /** The cache directory. A state file that does not parse is None. */
  datatype Disk = Disk(
    inodes: map<nat, Inode>,
    next: nat,
    partials: map<Token, nat>,
    states: map<Token, Option<Spec>>,
    artifacts: map<Digest, nat>)

  /**
   * An open session: its file, the bytes its hasher has absorbed, and its count. A failed append may
   * leave bytes in the file that the hasher never sees; torn tells how many.
   */
  datatype Session = Session(spec: Spec, inode: nat, hashed: seq<byte>, received: nat, torn: nat)

  type Live = map<Token, Session>

  predicate SafeToken(t: Token) {
    t != "" && forall i | 0 <= i < |t| :: 'a' <= t[i] <= 'z' || '0' <= t[i] <= '9' || t[i] == '-'
  }

  /** Small letters, digits and hyphens, by their code points, and at least one. */
  predicate Slug(t: Token) {
    |t| > 0 && forall i | 0 <= i < |t| :: 97 <= t[i] as int <= 122 || 48 <= t[i] as int <= 57 || t[i] as int == 45
  }

  lemma SlugExact(t: Token)
    ensures SafeToken(t) <==> Slug(t)
  {
    assert 'a' as int == 97 && 'z' as int == 122 && '0' as int == 48 && '9' as int == 57 && '-' as int == 45;
  }

  // The invariant.

  /** Every artifact is durable and hashes to its own name. */
  predicate ArtifactsOk(d: Disk, digest: seq<byte> -> Digest) {
    forall a | a in d.artifacts ::
      d.artifacts[a] in d.inodes && d.inodes[d.artifacts[a]].durable && digest(d.inodes[d.artifacts[a]].content) == a
  }

  /** Each partial has a file of its own. */
  predicate PartialsOk(d: Disk) {
    && (forall t | t in d.partials :: d.partials[t] in d.inodes)
    && (forall t, u | t in d.partials && u in d.partials && d.partials[t] == d.partials[u] :: t == u)
    && (forall i | i in d.inodes :: i < d.next)
  }

  /** A partial that is also an artifact is complete, so that nothing more is appended to it. */
  predicate LinkedComplete(d: Disk) {
    forall t | t in d.partials && t in d.states && d.states[t].Some? && d.partials[t] in d.inodes
               && d.partials[t] in d.artifacts.Values ::
      |d.inodes[d.partials[t]].content| == d.states[t].value.length
  }

  /** What a session's file holds: what its hasher absorbed, and the torn bytes in between. */
  predicate Tracks(d: Disk, s: Session) {
    && s.inode in d.inodes && s.received == |s.hashed| <= s.spec.length
    && |d.inodes[s.inode].content| == |s.hashed| + s.torn
    && (s.torn == 0 ==> d.inodes[s.inode].content == s.hashed)
  }

  /** Sessions track their files, and a torn one is not writing to an artifact. */
  predicate SessionsOk(d: Disk, live: Live) {
    forall t | t in live ::
      && t in d.partials && d.partials[t] == live[t].inode && Tracks(d, live[t])
      && t in d.states && d.states[t] == Some(live[t].spec)
      && (live[t].torn > 0 ==> live[t].inode !in d.artifacts.Values)
  }

  /** Every artifact has the length of the transfer that promoted it. */
  predicate LengthsOk(d: Disk, specs: map<Digest, Spec>) {
    forall a | a in d.artifacts ::
      && d.artifacts[a] in d.inodes && a in specs && specs[a].digest == a
      && |d.inodes[d.artifacts[a]].content| == specs[a].length
  }

  ghost predicate Inv(d: Disk, live: Live, digest: seq<byte> -> Digest) {
    ArtifactsOk(d, digest) && PartialsOk(d) && LinkedComplete(d) && SessionsOk(d, live)
  }

  /** Artifacts stay, with what they hold. */
  ghost predicate Lasting(before: Disk, after: Disk) {
    forall a | a in before.artifacts && before.artifacts[a] in before.inodes ::
      a in after.artifacts && after.artifacts[a] in after.inodes
      && after.inodes[after.artifacts[a]].content == before.inodes[before.artifacts[a]].content
  }

  // The steps on the directory.

  function WithPartial(d: Disk, t: Token): Disk {
    d.(inodes := d.inodes[d.next := Inode([], false)], next := d.next + 1, partials := d.partials[t := d.next])
  }

  function WithContent(d: Disk, i: nat, content: seq<byte>): Disk {
    d.(inodes := d.inodes[i := Inode(content, false)])
  }

  /** A write of these bytes behind a file; writing nothing leaves it alone. */
  function Extended(d: Disk, i: nat, bytes: seq<byte>): Disk
    requires i in d.inodes
  {
    if bytes == [] then d else WithContent(d, i, d.inodes[i].content + bytes)
  }

  predicate Fits(s: Session, bytes: seq<byte>) {
    s.received + |bytes| <= s.spec.length
  }

  /** The file after an append of which, if it fails, only the first bytes arrive. */
  function AppendedFile(d: Disk, s: Session, bytes: seq<byte>, fails: Option<nat>): Disk
    requires s.inode in d.inodes && (fails.Some? ==> fails.value < |bytes|)
  {
    if !Fits(s, bytes) then d else Extended(d, s.inode, if fails.Some? then bytes[..fails.value] else bytes)
  }

  /** The session after it: the hasher and the count only advance when the write succeeds. */
  function AppendedTo(s: Session, bytes: seq<byte>, fails: Option<nat>): Session {
    if !Fits(s, bytes) then s
    else if fails.Some? then s.(torn := s.torn + fails.value)
    else s.(hashed := s.hashed + bytes, received := s.received + |bytes|)
  }

  lemma AppendTracks(d: Disk, s: Session, bytes: seq<byte>, fails: Option<nat>)
    requires Tracks(d, s) && (fails.Some? ==> fails.value < |bytes|)
    ensures Tracks(AppendedFile(d, s, bytes, fails), AppendedTo(s, bytes, fails))
  {
    if fails.None? {
      assert bytes == [] ==> s.hashed + bytes == s.hashed;
    }
  }

  function Synced(d: Disk, i: nat): Disk
    requires i in d.inodes
  {
    d.(inodes := d.inodes[i := d.inodes[i].(durable := true)])
  }

  lemma NewPartial(d: Disk, live: Live, t: Token, digest: seq<byte> -> Digest)
    requires Inv(d, live, digest) && t !in d.partials
    ensures Inv(WithPartial(d, t), live, digest) && Lasting(d, WithPartial(d, t))
  {
    NewInodeUnlinked(d, live, t, digest);
    assert SessionsOk(WithPartial(d, t), live);
    hide SessionsOk;
  }

  lemma NewState(d: Disk, live: Live, t: Token, state: Option<Spec>, digest: seq<byte> -> Digest)
    requires Inv(d, live, digest) && t !in live
    requires t in d.partials && state.Some? ==> d.partials[t] !in d.artifacts.Values
    ensures Inv(d.(states := d.states[t := state]), live, digest)
  {
  }

  lemma DropPartial(d: Disk, live: Live, t: Token, digest: seq<byte> -> Digest)
    requires Inv(d, live, digest) && t !in live
    ensures Inv(d.(partials := d.partials - {t}), live, digest)
  {
  }

  lemma DropSession(d: Disk, live: Live, t: Token, digest: seq<byte> -> Digest)
    requires Inv(d, live, digest)
    ensures Inv(d, live - {t}, digest)
  {
  }

  lemma OpenSession(d: Disk, live: Live, t: Token, s: Session, digest: seq<byte> -> Digest)
    requires Inv(d, live, digest) && t in d.partials && d.partials[t] == s.inode && Tracks(d, s)
    requires t in d.states && d.states[t] == Some(s.spec)
    requires s.torn > 0 ==> s.inode !in d.artifacts.Values
    ensures Inv(d, live[t := s], digest)
  {
  }

  /** Only a file that is no artifact is written; any content of it keeps the directory sound. */
  lemma Rewritten(d: Disk, live: Live, t: Token, content: seq<byte>, digest: seq<byte> -> Digest)
    requires Inv(d, live, digest) && t in d.partials && t !in live && d.partials[t] !in d.artifacts.Values
    ensures Inv(WithContent(d, d.partials[t], content), live, digest)
    ensures Lasting(d, WithContent(d, d.partials[t], content))
  {
  }

  /** A session that can still take bytes does not write to an artifact. */
  lemma GrowingIsUnlinked(d: Disk, live: Live, t: Token, digest: seq<byte> -> Digest)
    requires Inv(d, live, digest) && t in live && live[t].received < live[t].spec.length
    ensures live[t].inode !in d.artifacts.Values
  {
  }

  /** What reaches the file of a session that is set aside. */
  lemma WriteKeeps(d: Disk, live: Live, t: Token, bytes: seq<byte>, specs: map<Digest, Spec>, digest: seq<byte> -> Digest)
    requires Inv(d, live, digest) && LengthsOk(d, specs) && t in d.partials && t !in live && d.partials[t] in d.inodes
    requires bytes != [] ==> d.partials[t] !in d.artifacts.Values
    ensures var after := Extended(d, d.partials[t], bytes);
            && Inv(after, live, digest) && Lasting(d, after) && LengthsOk(after, specs)
            && after == d.(inodes := after.inodes)
  {
    LastingSame(d);
    if bytes != [] {
      Rewritten(d, live, t, d.inodes[d.partials[t]].content + bytes, digest);
      hide Inv, Lasting;
      LengthsLast(d, Extended(d, d.partials[t], bytes), specs);
    }
  }

  lemma MayWrite(d: Disk, live: Live, t: Token, bytes: seq<byte>, fails: Option<nat>, digest: seq<byte> -> Digest)
    requires Inv(d, live, digest) && t in live && Fits(live[t], bytes) && (fails.Some? ==> fails.value < |bytes|)
    ensures bytes != [] || live[t].torn > 0 ==> live[t].inode !in d.artifacts.Values
    ensures AppendedTo(live[t], bytes, fails).torn > 0 ==> live[t].inode !in d.artifacts.Values
  {
    if bytes != [] {
      GrowingIsUnlinked(d, live, t, digest);
    }
  }

  /** A partial that is the artifact of its own transfer is complete and verified. */
  lemma PromotedComplete(d: Disk, live: Live, t: Token, digest: seq<byte> -> Digest)
    requires Inv(d, live, digest) && t in d.partials && t in d.states && d.states[t].Some?
    requires d.states[t].value.digest in d.artifacts && d.artifacts[d.states[t].value.digest] == d.partials[t]
    ensures d.partials[t] in d.inodes
    ensures var content, spec := d.inodes[d.partials[t]].content, d.states[t].value;
            |content| == spec.length && digest(content) == spec.digest && Accepts(d, spec, digest)
  {
  }

  lemma SessionOnDisk(d: Disk, live: Live, t: Token, digest: seq<byte> -> Digest)
    requires Inv(d, live, digest) && t in live
    ensures t in d.partials && d.partials[t] == live[t].inode && Tracks(d, live[t]) && live[t].inode in d.inodes
    ensures t in d.states && d.states[t] == Some(live[t].spec)
  {
  }

  /** An append keeps the cache sound, whether its write fails or not. */
  lemma AppendKeeps(d: Disk, live: Live, t: Token, bytes: seq<byte>, fails: Option<nat>, specs: map<Digest, Spec>,
                    digest: seq<byte> -> Digest)
    requires Inv(d, live, digest) && LengthsOk(d, specs) && t in live && (fails.Some? ==> fails.value < |bytes|)
    ensures live[t].inode in d.inodes
    ensures var s := live[t]; var after := AppendedFile(d, s, bytes, fails);
            && Inv(after, live[t := AppendedTo(s, bytes, fails)], digest) && Lasting(d, after) && LengthsOk(after, specs)
  {
    var s := live[t];
    SessionOnDisk(d, live, t, digest);
    hide Inv, Lasting, LengthsOk, Tracks;
    LastingSame(d);
    if Fits(s, bytes) {
      FittingKeeps(d, live, t, bytes, fails, specs, digest);
    } else {
      assert live[t := s] == live;
    }
  }

  lemma FittingKeeps(d: Disk, live: Live, t: Token, bytes: seq<byte>, fails: Option<nat>, specs: map<Digest, Spec>,
                     digest: seq<byte> -> Digest)
    requires Inv(d, live, digest) && LengthsOk(d, specs) && t in live && (fails.Some? ==> fails.value < |bytes|)
    requires live[t].inode in d.inodes && Fits(live[t], bytes)
    ensures var s := live[t]; var after := AppendedFile(d, s, bytes, fails);
            && Inv(after, live[t := AppendedTo(s, bytes, fails)], digest) && Lasting(d, after) && LengthsOk(after, specs)
  {
    hide Inv, Lasting, LengthsOk, Extended, Tracks;
    var s, others := live[t], live - {t};
    var grown := AppendedTo(s, bytes, fails);
    SessionOnDisk(d, live, t, digest);
    AppendTracks(d, s, bytes, fails);
    MayWrite(d, live, t, bytes, fails, digest);
    DropSession(d, live, t, digest);
    WriteKeeps(d, others, t, if fails.Some? then bytes[..fails.value] else bytes, specs, digest);
    OpenSession(AppendedFile(d, s, bytes, fails), others, t, grown, digest);
    assert others[t := grown] == live[t := grown];
  }

  lemma SyncedKeeps(d: Disk, live: Live, i: nat, digest: seq<byte> -> Digest)
    requires Inv(d, live, digest) && i in d.inodes
    ensures Inv(Synced(d, i), live, digest) && Lasting(d, Synced(d, i))
  {
  }

  /** The hard link that promotes a verified partial. */
  lemma Linked(d: Disk, live: Live, t: Token, spec: Spec, digest: seq<byte> -> Digest)
    requires Inv(d, live, digest) && t in d.partials && t !in live
    requires var n := d.inodes[d.partials[t]]; n.durable && |n.content| == spec.length && digest(n.content) == spec.digest
    requires t in d.states && d.states[t] == Some(spec) && spec.digest !in d.artifacts
    ensures var after := d.(artifacts := d.artifacts[spec.digest := d.partials[t]]);
            Inv(after, live, digest) && Lasting(d, after)
  {
    var after := d.(artifacts := d.artifacts[spec.digest := d.partials[t]]);
    assert forall i | i in after.artifacts.Values :: i in d.artifacts.Values || i == d.partials[t];
  }

  /** Linking the file of a verified session keeps the cache sound exactly if the file is not torn. */
  lemma LinkExact(d: Disk, live: Live, t: Token, s: Session, specs: map<Digest, Spec>, digest: seq<byte> -> Digest)
    requires Inv(d, live, digest) && LengthsOk(d, specs) && t in d.partials && t !in live
    requires d.partials[t] == s.inode && Tracks(d, s) && d.inodes[s.inode].durable && Verified(s, digest)
    requires t in d.states && d.states[t] == Some(s.spec) && s.spec.digest !in d.artifacts
    ensures var after, promoted := d.(artifacts := d.artifacts[s.spec.digest := s.inode]), specs[s.spec.digest := s.spec];
            && Lasting(d, after)
            && (s.torn == 0 ==> Inv(after, live, digest) && LengthsOk(after, promoted) && Accepts(after, s.spec, digest))
            && (s.torn > 0 ==> !LengthsOk(after, promoted))
  {
    var after := d.(artifacts := d.artifacts[s.spec.digest := s.inode]);
    if s.torn == 0 {
      Linked(d, live, t, s.spec, digest);
    } else {
      assert s.spec.digest in after.artifacts;
    }
  }

  /** Removing the partial or the state of a token without a session. */
  lemma CleanKeeps(d: Disk, after: Disk, live: Live, t: Token, specs: map<Digest, Spec>, digest: seq<byte> -> Digest)
    requires t !in live
    requires after == d.(partials := d.partials - {t}) || after == d.(states := d.states - {t})
    ensures Inv(d, live, digest) ==> Inv(after, live, digest)
    ensures LengthsOk(after, specs) <==> LengthsOk(d, specs)
  {
  }

  /** Lengths last where artifacts do and none is added. */
  lemma LengthsLast(before: Disk, after: Disk, specs: map<Digest, Spec>)
    requires LengthsOk(before, specs) && Lasting(before, after) && after.artifacts.Keys == before.artifacts.Keys
    ensures LengthsOk(after, specs)
  {
  }

  lemma LastingTwice(a: Disk, b: Disk, c: Disk)
    requires Lasting(a, b) && Lasting(b, c)
    ensures Lasting(a, c)
  {
  }

  /** After a crash, what was not durable holds anything; nothing else on the directory changes. */
  function Crashed(d: Disk, lost: nat -> seq<byte>): Disk {
    d.(inodes := map i | i in d.inodes :: if d.inodes[i].durable then d.inodes[i] else Inode(lost(i), false))
  }

  lemma CrashKeeps(d: Disk, live: Live, lost: nat -> seq<byte>, digest: seq<byte> -> Digest)
    requires Inv(d, live, digest)
    ensures Inv(Crashed(d, lost), map[], digest) && Lasting(d, Crashed(d, lost))
  {
    assert forall i | i in d.artifacts.Values :: exists a :: a in d.artifacts && d.artifacts[a] == i;
  }

  // Where an operation stops, by an error or because the process does.

  /**
   * A failing start leaves a state file or none. Removing the partial of a try without a state may fail
   * as well, which goes unnoticed.
   */
  datatype BeginFault = Begins(cleaned: bool) | NoPartial | NoState(left: Option<Option<Spec>>, cleaned: bool)

  datatype FinishFault = Finishes | AtSync | AtLink | AtPartial | AtState

  predicate Verified(s: Session, digest: seq<byte> -> Digest) {
    s.received == s.spec.length && digest(s.hashed) == s.spec.digest
  }

  predicate Accepts(d: Disk, spec: Spec, digest: seq<byte> -> Digest) {
    && spec.digest in d.artifacts && d.artifacts[spec.digest] in d.inodes
    && |d.inodes[d.artifacts[spec.digest]].content| == spec.length
    && digest(d.inodes[d.artifacts[spec.digest]].content) == spec.digest
  }

  class VerifiedCache {
    const digest: seq<byte> -> Digest
    var disk: Disk
    var live: Live
    /** For each artifact, what the transfer that promoted it was to fetch. */
    ghost var specs: map<Digest, Spec>

    ghost predicate Valid()
      reads this
    {
      Inv(disk, live, digest) && LengthsOk(disk, specs)
    }

    constructor (digest: seq<byte> -> Digest)
      ensures Valid() && this.digest == digest && live == map[] && disk == Disk(map[], 0, map[], map[], map[])
    {
      this.digest := digest;
      disk, live, specs := Disk(map[], 0, map[], map[], map[]), map[], map[];
    }

    /** One try of a start; None asks for another token. */
    method TryBegin(spec: Spec, t: Token, f: BeginFault) returns (r: Result<Option<Token>>)
      requires Valid()
      requires f.NoState? && f.left.Some? && f.left.value.Some? ==> f.left.value.value == spec
      modifies this
      ensures Valid() && Lasting(old(disk), disk) && specs == old(specs)
      ensures r == Ok(None) <==> t in old(disk).partials || (!f.NoPartial? && t in old(disk).states)
      ensures r.Ok? && r.value.Some? ==> r.value == Some(t) && live == old(live)[t := Session(spec, old(disk).next, [], 0, 0)]
      ensures !(r.Ok? && r.value.Some?) ==> live == old(live)
      ensures disk.artifacts == old(disk).artifacts
    {
      hide Inv, Lasting, LengthsOk;
      LastingSame(disk);
      if t in disk.partials {
        return Ok(None);
      }
      if f.NoPartial? {
        return Err("partial");
      }
      ghost var before := disk;
      var session := Session(spec, disk.next, [], 0, 0);
      NotLive(disk, live, t, digest);
      NewPartial(disk, live, t, digest);
      disk := WithPartial(disk, t);
      if t in disk.states {
        if f.cleaned {
          DropPartial(disk, live, t, digest);
          disk := disk.(partials := disk.partials - {t});
        }
        LastingDirectory(before, WithPartial(before, t), disk);
        LengthsLast(before, disk, specs);
        return Ok(None);
      }
      NewInodeUnlinked(before, live, t, digest);
      var state := if f.NoState? then f.left else Some(Some(spec));
      if state.Some? {
        NewState(disk, live, t, state.value, digest);
        disk := disk.(states := disk.states[t := state.value]);
      }
      LastingDirectory(before, WithPartial(before, t), disk);
      if f.NoState? {
        if f.cleaned {
          DropPartial(disk, live, t, digest);
          disk := disk.(partials := disk.partials - {t});
        }
        LastingDirectory(before, WithPartial(before, t), disk);
        LengthsLast(before, disk, specs);
        return Err("state");
      }
      LengthsLast(before, disk, specs);
      OpenSession(disk, live, t, session, digest);
      live := live[t := session];
      return Ok(Some(t));
    }

    /** Up to 128 tries; a fault ends the start. */
    method Begin(spec: Spec, tokens: seq<Token>, f: BeginFault) returns (r: Result<Token>)
      requires Valid() && |tokens| == 128
      requires f.NoState? && f.left.Some? && f.left.value.Some? ==> f.left.value.value == spec
      modifies this
      ensures Valid() && Lasting(old(disk), disk) && disk.artifacts == old(disk).artifacts && specs == old(specs)
      ensures r.Ok? ==> r.value in tokens && r.value in live && live[r.value].spec == spec && live[r.value].hashed == []
      ensures r.Err? ==> live == old(live)
    {
      hide Inv, Lasting;
      ghost var before := disk;
      LastingSame(disk);
      for i := 0 to 128
        invariant Valid() && Lasting(before, disk) && live == old(live) && disk.artifacts == before.artifacts && specs == old(specs)
      {
        ghost var last := disk;
        var tried := TryBegin(spec, tokens[i], f);
        LastingTwice(before, last, disk);
        if tried.Err? {
          return Err(tried.message);
        }
        if tried.value.Some? {
          return Ok(tokens[i]);
        }
      }
      return Err("no token");
    }

    predicate CanResume(t: Token)
      reads this
    {
      && Slug(t) && t in disk.states && disk.states[t].Some?
      && t in disk.partials && disk.partials[t] in disk.inodes
      && |disk.inodes[disk.partials[t]].content| <= disk.states[t].value.length
    }

    /** The file is authoritative: its length and hash are taken anew. A session of the token must not be open. */
    method Resume(t: Token, cancelled: bool) returns (r: Result<Session>)
      requires Valid() && t !in live
      modifies `live
      ensures Valid()
      ensures r.Ok? <==> CanResume(t) && !cancelled
      ensures r.Ok? ==> live == old(live)[t := r.value]
      ensures r.Ok? ==> var content := disk.inodes[disk.partials[t]].content;
                r.value == Session(disk.states[t].value, disk.partials[t], content, |content|, 0)
      ensures r.Err? ==> live == old(live)
    {
      hide ArtifactsOk, LinkedComplete, SessionsOk, SafeToken, Slug;
      SlugExact(t);
      if !SafeToken(t) {
        return Err("token");
      }
      if t !in disk.states || disk.states[t].None? {
        return Err("state");
      }
      if t !in disk.partials {
        return Err("partial");
      }
      var content := disk.inodes[disk.partials[t]].content;
      if |content| > disk.states[t].value.length {
        return Err("oversized");
      }
      if cancelled {
        return Err("cancelled");
      }
      var session := Session(disk.states[t].value, disk.partials[t], content, |content|, 0);
      OpenSession(disk, live, t, session, digest);
      live := live[t := session];
      return Ok(session);
    }

    /**
     * Appends to the file, then to the hasher. When the write fails after some bytes the hasher lags
     * behind the file; the session stays open, and what becomes of it is up to the caller.
     */
    method Append(t: Token, bytes: seq<byte>, fails: Option<nat>) returns (r: Result<()>)
      requires Valid() && t in live && (fails.Some? ==> fails.value < |bytes|)
      modifies `disk, `live
      ensures Valid() && Lasting(old(disk), disk)
      ensures r.Ok? <==> old(live)[t].received + |bytes| <= old(live)[t].spec.length && fails.None?
      ensures old(live)[t].inode in old(disk).inodes && disk == AppendedFile(old(disk), old(live)[t], bytes, fails)
      ensures live == old(live)[t := AppendedTo(old(live)[t], bytes, fails)]
    {
      hide Inv, Lasting, LengthsOk, Extended;
      var s := live[t];
      AppendKeeps(disk, live, t, bytes, fails, specs, digest);
      if s.received + |bytes| > s.spec.length {
        assert live[t := s] == live;
        return Err("oversized");
      }
      disk := Extended(disk, s.inode, if fails.Some? then bytes[..fails.value] else bytes);
      if fails.Some? {
        live := live[t := s.(torn := s.torn + fails.value)];
        return Err("write");
      }
      live := live[t := s.(hashed := s.hashed + bytes, received := s.received + |bytes|)];
      return Ok(());
    }

    /** The caller gives a session up. */
    method Drop(t: Token)
      requires Valid()
      modifies `live
      ensures Valid() && live == old(live) - {t}
    {
      DropSession(disk, live, t, digest);
      live := live - {t};
    }

    method Checkpoint(t: Token, ok: bool)
      requires Valid() && t in live
      modifies `disk
      ensures Valid() && Lasting(old(disk), disk)
    {
      LastingSame(disk);
      if ok {
        SyncedKeeps(disk, live, live[t].inode, digest);
        LengthsLast(disk, Synced(disk, live[t].inode), specs);
        disk := Synced(disk, live[t].inode);
      }
    }

    predicate CanFinalize(s: Session)
      reads this
    {
      && s.received == s.spec.length && digest(s.hashed) == s.spec.digest
      && (s.spec.digest in disk.artifacts ==> Accepts(disk, s.spec, digest))
    }

    /** Finalizing this session links its file as an artifact. */
    predicate Promotes(s: Session, f: FinishFault)
      reads this
    {
      && s.received == s.spec.length && digest(s.hashed) == s.spec.digest
      && !f.AtSync? && !f.AtLink? && s.spec.digest !in disk.artifacts
    }

    /**
     * Makes a verified partial visible as an artifact; the session ends in any case. The cache stays sound
     * exactly if no torn file is linked.
     */
    method Finalize(t: Token, f: FinishFault) returns (r: Result<Artifact>)
      requires Valid() && t in live
      modifies this
      ensures Valid() <==> old(Promotes(live[t], f) ==> live[t].torn == 0)
      ensures Lasting(old(disk), disk) && live == old(live) - {t}
      ensures r.Ok? <==> old(CanFinalize(live[t])) && f.Finishes?
      ensures r.Ok? ==> var spec := old(live)[t].spec;
                r.value == Artifact(spec.digest, spec.length, spec.digest in old(disk).artifacts)
                && (Valid() ==> Accepts(disk, spec, digest))
      ensures r.Ok? ==> t !in disk.partials && t !in disk.states
      ensures old(Promotes(live[t], f)) ==> specs == old(specs)[old(live)[t].spec.digest := old(live)[t].spec]
      ensures !old(Promotes(live[t], f)) ==> specs == old(specs) && disk.artifacts == old(disk).artifacts
    {
      SessionOnDisk(disk, live, t, digest);
      hide Inv, Lasting, LengthsOk, Tracks;
      var s := live[t];
      ghost var before := disk;
      DropSession(disk, live, t, digest);
      LastingSame(disk);
      live := live - {t};
      if !Verified(s, digest) {
        return Err("unverified");
      }
      if f.AtSync? {
        return Err("sync");
      }
      SyncedKeeps(disk, live, s.inode, digest);
      LengthsLast(disk, Synced(disk, s.inode), specs);
      disk := Synced(disk, s.inode);
      ghost var synced := disk;
      if f.AtLink? {
        return Err("link");
      }
      var reused := s.spec.digest in disk.artifacts;
      if reused {
        if !Accepts(disk, s.spec, digest) {
          return Err("cache entry");
        }
      } else {
        LinkExact(disk, live, t, s, specs, digest);
        disk := disk.(artifacts := disk.artifacts[s.spec.digest := s.inode]);
        specs := specs[s.spec.digest := s.spec];
        LastingTwice(before, synced, disk);
      }
      ghost var linked := disk;
      var cleaned := Clean(t, f);
      LastingDirectory(before, linked, disk);
      return if cleaned then Ok(Artifact(s.spec.digest, s.spec.length, reused)) else Err("cleanup");
    }

    method Discard(t: Token, f: FinishFault) returns (ok: bool)
      requires Valid() && t in live
      modifies `disk, `live
      ensures Valid() && Lasting(old(disk), disk) && live == old(live) - {t}
      ensures disk.artifacts == old(disk).artifacts && disk.inodes == old(disk).inodes
      ensures ok ==> t !in disk.partials && t !in disk.states
    {
      hide Inv, Lasting, LengthsOk;
      DropSession(disk, live, t, digest);
      LastingSame(disk);
      live := live - {t};
      ok := Clean(t, f);
      LastingDirectory(old(disk), old(disk), disk);
    }

    /** Removes the partial and then the state of a transfer without a session. */
    method Clean(t: Token, f: FinishFault) returns (ok: bool)
      requires t !in live
      modifies `disk
      ensures old(Inv(disk, live, digest)) ==> Inv(disk, live, digest)
      ensures LengthsOk(disk, specs) <==> old(LengthsOk(disk, specs))
      ensures disk.artifacts == old(disk).artifacts && disk.inodes == old(disk).inodes
      ensures ok <==> !f.AtPartial? && !f.AtState?
      ensures ok ==> t !in disk.partials && t !in disk.states
    {
      hide Inv, LengthsOk;
      if f.AtPartial? {
        return false;
      }
      CleanKeeps(disk, disk.(partials := disk.partials - {t}), live, t, specs, digest);
      disk := disk.(partials := disk.partials - {t});
      if f.AtState? {
        return false;
      }
      CleanKeeps(disk, disk.(states := disk.states - {t}), live, t, specs, digest);
      disk := disk.(states := disk.states - {t});
      return true;
    }

    /** Only an artifact of the right length is ever returned, and its digest is always right. */
    method Lookup(spec: Spec) returns (r: Result<Option<Digest>>)
      requires Valid()
      ensures r == Ok(None) <==> spec.digest !in disk.artifacts
      ensures r.Ok? && r.value.Some? ==> r.value.value == spec.digest && Accepts(disk, spec, digest)
      ensures r.Err? <==> spec.digest in disk.artifacts && |disk.inodes[disk.artifacts[spec.digest]].content| != spec.length
    {
      if spec.digest !in disk.artifacts {
        return Ok(None);
      }
      if !Accepts(disk, spec, digest) {
        return Err("cache entry");
      }
      return Ok(Some(spec.digest));
    }

    /** The machine or the process stops: sessions are gone, and what was not durable holds anything. */
    method Crash(lost: nat -> seq<byte>)
      requires Valid()
      modifies `disk, `live
      ensures Valid() && Lasting(old(disk), disk) && live == map[] && disk == Crashed(old(disk), lost)
    {
      CrashKeeps(disk, live, lost, digest);
      LengthsLast(disk, Crashed(disk, lost), specs);
      disk, live := Crashed(disk, lost), map[];
    }

    /** The partial of the token is the artifact itself: finalizing stopped between linking and removing. */
    predicate Promoted(t: Token)
      reads this
    {
      && Slug(t) && t in disk.partials && t in disk.states && disk.states[t].Some?
      && disk.states[t].value.digest in disk.artifacts
      && disk.artifacts[disk.states[t].value.digest] == disk.partials[t]
    }

    /** Such a transfer can always be resumed and finalized, and finds its artifact in place. */
    method FinishPromoted(t: Token) returns (r: Result<Artifact>)
      requires Valid() && t !in live && Promoted(t)
      modifies this
      ensures Valid() && Lasting(old(disk), disk) && live == old(live)
      ensures var spec := old(disk).states[t].value; r == Ok(Artifact(spec.digest, spec.length, true))
      ensures t !in disk.partials && t !in disk.states && specs == old(specs)
    {
      PromotedComplete(disk, live, t, digest);
      hide Inv, Lasting, LengthsOk, Tracks, Accepts;
      ghost var others := live;
      var resumed := Resume(t, false);
      assert live - {t} == others;
      assert resumed.Ok? && live[t].torn == 0 && CanFinalize(live[t]);
      r := Finalize(t, Finishes);
    }
  }

  /** What finalizing returns: whether an artifact was there already. */
  datatype Artifact = Artifact(digest: Digest, length: nat, reused: bool)

  lemma LastingSame(d: Disk)
    ensures Lasting(d, d)
  {
  }

  /** Directory entries of partials and states do not matter for artifacts. */
  lemma LastingDirectory(a: Disk, b: Disk, c: Disk)
    requires Lasting(a, b) && b.inodes == c.inodes && b.artifacts == c.artifacts
    ensures Lasting(a, c)
  {
  }

  lemma NotLive(d: Disk, live: Live, t: Token, digest: seq<byte> -> Digest)
    requires Inv(d, live, digest) && t !in d.partials
    ensures t !in live
  {
  }

  lemma NewInodeUnlinked(d: Disk, live: Live, t: Token, digest: seq<byte> -> Digest)
    requires Inv(d, live, digest)
    ensures WithPartial(d, t).partials[t] == d.next && d.next !in d.artifacts.Values
  {
    assert forall i | i in d.artifacts.Values :: exists a :: a in d.artifacts && d.artifacts[a] == i;
  }

  // Whole runs.

  datatype Call =
    | ToBegin(spec: Spec, tokens: seq<Token>)
    | ToResume(token: Token, cancelled: bool)
    | ToAppend(token: Token, bytes: seq<byte>, fails: Option<nat>)
    | ToCheckpoint(token: Token, ok: bool)
    | ToDrop(token: Token)
    | ToFinalize(token: Token, stop: FinishFault)
    | ToDiscard(token: Token, stop: FinishFault)
    | ToCrash(lost: nat -> seq<byte>)

  /** A torn state file does not parse; a complete one holds what was asked for. */
  predicate FaultOf(call: Call, f: BeginFault) {
    f.NoState? && f.left.Some? && f.left.value.Some? && call.ToBegin? ==> f.left.value.value == call.spec
  }

  /** What promoted an artifact stays on record. */
  predicate SpecsLast(before: Disk, specs: map<Digest, Spec>, later: map<Digest, Spec>) {
    forall a | a in before.artifacts && a in specs :: a in later && later[a] == specs[a]
  }

  /** One call; what the rules of the cache do not admit is not made. */
  method Perform(cache: VerifiedCache, call: Call, f: BeginFault)
    requires cache.Valid() && FaultOf(call, f)
    modifies cache
    ensures cache.Valid() && Lasting(old(cache.disk), cache.disk)
    ensures SpecsLast(old(cache.disk), old(cache.specs), cache.specs)
  {
    LastingSame(cache.disk);
    hide Inv, Lasting, LengthsOk;
    match call {
      case ToBegin(spec, tokens) =>
        if |tokens| == 128 {
          var begun := cache.Begin(spec, tokens, f);
        }
      case ToResume(t, cancelled) =>
        if t !in cache.live {
          var resumed := cache.Resume(t, cancelled);
        }
      case ToAppend(t, bytes, fails) =>
        if t in cache.live && (fails.Some? ==> fails.value < |bytes|) {
          var appended := cache.Append(t, bytes, fails);
        }
      case ToCheckpoint(t, ok) =>
        if t in cache.live {
          cache.Checkpoint(t, ok);
        }
      case ToDrop(t) =>
        cache.Drop(t);
      case ToFinalize(t, stop) =>
        if t in cache.live && cache.live[t].torn == 0 {
          var finalized := cache.Finalize(t, stop);
        }
      case ToDiscard(t, stop) =>
        if t in cache.live {
          var discarded := cache.Discard(t, stop);
        }
      case ToCrash(lost) =>
        cache.Crash(lost);
    }
  }

  lemma SpecsLastTwice(a: Disk, b: Disk, first: map<Digest, Spec>, second: map<Digest, Spec>, third: map<Digest, Spec>)
    requires LengthsOk(a, first) && Lasting(a, b)
    requires SpecsLast(a, first, second) && SpecsLast(b, second, third)
    ensures SpecsLast(a, first, third)
  {
  }

  /**
   * Over every run of calls, errors and crashes, with one open session a token and no torn file finalized:
   * an artifact always hashes to its own name and has the length of the transfer that promoted it, and
   * once there it stays as it is.
   */
  method Run(cache: VerifiedCache, calls: seq<(Call, BeginFault)>)
    requires cache.Valid()
    requires forall k | 0 <= k < |calls| :: FaultOf(calls[k].0, calls[k].1)
    modifies cache
    ensures ArtifactsOk(cache.disk, cache.digest) && LengthsOk(cache.disk, cache.specs)
    ensures Lasting(old(cache.disk), cache.disk) && SpecsLast(old(cache.disk), old(cache.specs), cache.specs)
  {
    hide Lasting, PartialsOk, LinkedComplete, SessionsOk, ArtifactsOk, LengthsOk, SpecsLast;
    ghost var before, promoted := cache.disk, cache.specs;
    LastingSame(before);
    SpecsSame(before, promoted);
    for k := 0 to |calls|
      invariant cache.Valid() && Lasting(before, cache.disk) && SpecsLast(before, promoted, cache.specs)
    {
      ghost var last, known := cache.disk, cache.specs;
      Perform(cache, calls[k].0, calls[k].1);
      LastingTwice(before, last, cache.disk);
      SpecsLastTwice(before, last, promoted, known, cache.specs);
    }
  }

  lemma SpecsSame(d: Disk, specs: map<Digest, Spec>)
    ensures SpecsLast(d, specs, specs)
  {
  }
}
