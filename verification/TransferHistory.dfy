// Why a session whose write failed must not be finalized: over every history of appends, exactly when
// its file still is what its hasher vouches for.
module TransferHistory {
  import opened Bytes
  import opened DownloadCache

  /** The bytes of one append, and how many of them arrive if it fails. */
  datatype Attempt = Attempt(bytes: seq<byte>, fails: Option<nat>)

  predicate Sane(attempts: seq<Attempt>) {
    forall k | 0 <= k < |attempts| && attempts[k].fails.Some? :: attempts[k].fails.value < |attempts[k].bytes|
  }

  /** The session after the attempts, whatever their outcomes: it is never dropped. */
  function SessionAfter(s: Session, attempts: seq<Attempt>): (r: Session)
    ensures r.inode == s.inode && r.spec == s.spec
  {
    if attempts == [] then s
    else
      var n := |attempts| - 1;
      AppendedTo(SessionAfter(s, attempts[..n]), attempts[n].bytes, attempts[n].fails)
  }

  /** The directory after them. */
  function DiskAfter(d: Disk, s: Session, attempts: seq<Attempt>): (r: Disk)
    requires s.inode in d.inodes && Sane(attempts)
    ensures s.inode in r.inodes && r.artifacts == d.artifacts
  {
    if attempts == [] then d
    else
      var n := |attempts| - 1;
      AppendedFile(DiskAfter(d, s, attempts[..n]), SessionAfter(s, attempts[..n]), attempts[n].bytes, attempts[n].fails)
  }

  /** Attempt k was let through, and its write failed after bytes had reached the file. */
  predicate Tears(s: Session, attempts: seq<Attempt>, k: nat)
    requires k < |attempts|
  {
    attempts[k].fails.Some? && attempts[k].fails.value > 0 && Fits(SessionAfter(s, attempts[..k]), attempts[k].bytes)
  }

  /** The directory once the file is synced and linked as its artifact. */
  function Promoted(d: Disk, s: Session): Disk
    requires s.inode in d.inodes
  {
    Synced(d, s.inode).(artifacts := d.artifacts[s.spec.digest := s.inode])
  }

  lemma {:induction false} HistoryTracks(d: Disk, s: Session, attempts: seq<Attempt>)
    requires Tracks(d, s) && Sane(attempts)
    ensures Tracks(DiskAfter(d, s, attempts), SessionAfter(s, attempts))
    ensures SessionAfter(s, attempts).torn >= s.torn
    decreases |attempts|
  {
    if attempts != [] {
      var n := |attempts| - 1;
      HistoryTracks(d, s, attempts[..n]);
      hide Tracks;
      AppendTracks(DiskAfter(d, s, attempts[..n]), SessionAfter(s, attempts[..n]), attempts[n].bytes, attempts[n].fails);
    }
  }

  /** The file of an untorn session gets torn exactly by a failed append of which bytes arrived. */
  lemma {:induction false} TornExact(s: Session, attempts: seq<Attempt>)
    requires Sane(attempts) && s.torn == 0
    ensures SessionAfter(s, attempts).torn == 0 <==> forall k | 0 <= k < |attempts| :: !Tears(s, attempts, k)
    decreases |attempts|
  {
    if attempts != [] {
      var n := |attempts| - 1;
      var before := attempts[..n];
      TornExact(s, before);
      assert forall k | 0 <= k < n :: before[..k] == attempts[..k];
      assert forall k | 0 <= k < n :: Tears(s, before, k) <==> Tears(s, attempts, k);
      assert SessionAfter(s, attempts).torn == 0 <==> SessionAfter(s, before).torn == 0 && !Tears(s, attempts, n);
    }
  }

  /**
   * After any history of appends to a session that began in step with its file, the file is what the hasher
   * absorbed exactly if no append failed after bytes had reached the file. For a caller: exactly if the
   * file is as long as the session's count.
   */
  lemma FileIsVouchedFor(d: Disk, s: Session, attempts: seq<Attempt>)
    requires Tracks(d, s) && s.torn == 0 && Sane(attempts)
    ensures var after, last := DiskAfter(d, s, attempts), SessionAfter(s, attempts);
            var content := after.inodes[s.inode].content;
            && (content == last.hashed <==> forall k | 0 <= k < |attempts| :: !Tears(s, attempts, k))
            && (content == last.hashed <==> |content| == last.received)
  {
    HistoryTracks(d, s, attempts);
    TornExact(s, attempts);
    hide Tears;
  }

  /** Linking a file keeps every artifact equal to its name exactly if the file has the digest its hasher gave. */
  lemma PromotionExact(d: Disk, s: Session, digest: seq<byte> -> Digest)
    requires ArtifactsOk(d, digest) && s.inode in d.inodes && Verified(s, digest) && s.spec.digest !in d.artifacts
    ensures ArtifactsOk(Promoted(d, s), digest) <==> digest(d.inodes[s.inode].content) == digest(s.hashed)
  {
    var after := Promoted(d, s);
    assert s.spec.digest in after.artifacts;
  }

  /** So a verified session is safe to promote if none of its appends tore the file, and otherwise only by a collision. */
  lemma SafeToPromote(d: Disk, s: Session, attempts: seq<Attempt>, digest: seq<byte> -> Digest)
    requires Tracks(d, s) && s.torn == 0 && Sane(attempts)
    requires var after, last := DiskAfter(d, s, attempts), SessionAfter(s, attempts);
             ArtifactsOk(after, digest) && Verified(last, digest) && last.spec.digest !in after.artifacts
    ensures var after, last := DiskAfter(d, s, attempts), SessionAfter(s, attempts);
            var content := after.inodes[s.inode].content;
            ArtifactsOk(Promoted(after, last), digest) <==>
              || (forall k | 0 <= k < |attempts| :: !Tears(s, attempts, k))
              || (content != last.hashed && digest(content) == digest(last.hashed))
  {
    FileIsVouchedFor(d, s, attempts);
    PromotionExact(DiskAfter(d, s, attempts), SessionAfter(s, attempts), digest);
    hide Tears, ArtifactsOk, Tracks;
  }

  lemma SplitLast(d: Disk, s: Session, attempts: seq<Attempt>, last: Attempt)
    requires s.inode in d.inodes && Sane(attempts + [last])
    ensures SessionAfter(s, attempts + [last]) == AppendedTo(SessionAfter(s, attempts), last.bytes, last.fails)
    ensures last == (attempts + [last])[|attempts|] && Sane(attempts)
    ensures DiskAfter(d, s, attempts + [last])
         == AppendedFile(DiskAfter(d, s, attempts), SessionAfter(s, attempts), last.bytes, last.fails)
  {
    assert (attempts + [last])[..|attempts|] == attempts;
    assert forall k | 0 <= k < |attempts| :: (attempts + [last])[k] == attempts[k];
  }

  const FIRST: Attempt := Attempt([1, 2], Some(1))
  const AGAIN: Attempt := Attempt([1, 2], None)

  lemma FirstTears(d: Disk, s: Session)
    requires s.inode in d.inodes && d.inodes[s.inode].content == [] && s.hashed == [] && s.received == 0 && s.spec.length == 2
    ensures SessionAfter(s, [FIRST]) == s.(torn := s.torn + 1)
    ensures DiskAfter(d, s, [FIRST]).inodes[s.inode].content == [1]
  {
    assert [] + [FIRST] == [FIRST];
    SplitLast(d, s, [], FIRST);
    assert FIRST.bytes[..1] == [1] && [] + FIRST.bytes[..1] == [1];
  }

  lemma AgainSucceeds(d: Disk, s: Session)
    requires s.inode in d.inodes && d.inodes[s.inode].content == [] && s.hashed == [] && s.received == 0 && s.spec.length == 2
    ensures SessionAfter(s, [FIRST, AGAIN]) == s.(torn := s.torn + 1, hashed := [1, 2], received := 2)
    ensures DiskAfter(d, s, [FIRST, AGAIN]).inodes[s.inode].content == [1, 1, 2]
  {
    FirstTears(d, s);
    assert [FIRST] + [AGAIN] == [FIRST, AGAIN];
    SplitLast(d, s, [FIRST], AGAIN);
    hide SessionAfter, DiskAfter;
    assert [] + AGAIN.bytes == [1, 2] && [1] + AGAIN.bytes == [1, 1, 2];
  }

  /**
   * A session that goes on after a failed write: one of two bytes arrives, the append is repeated and
   * succeeds, the session verifies, and the artifact it makes holds three bytes.
   */
  lemma ReusedSession(d: Disk, inode: nat, digest: seq<byte> -> Digest)
    requires inode in d.inodes && d.inodes[inode].content == [] && digest([1, 2]) !in d.artifacts
    ensures var s := Session(Spec(2, digest([1, 2])), inode, [], 0, 0);
            var after, last := DiskAfter(d, s, [FIRST, AGAIN]), SessionAfter(s, [FIRST, AGAIN]);
            && Verified(last, digest) && last.hashed == [1, 2]
            && var broken := Promoted(after, last);
               && broken.inodes[broken.artifacts[digest([1, 2])]].content == [1, 1, 2]
               && (digest([1, 1, 2]) != digest([1, 2]) ==> !ArtifactsOk(broken, digest))
  {
    var s := Session(Spec(2, digest([1, 2])), inode, [], 0, 0);
    FirstTears(d, s);
    AgainSucceeds(d, s);
    hide SessionAfter, DiskAfter;
    var broken := Promoted(DiskAfter(d, s, [FIRST, AGAIN]), SessionAfter(s, [FIRST, AGAIN]));
    hide ArtifactsOk;
    if digest([1, 1, 2]) != digest([1, 2]) {
      BrokenArtifact(broken, digest([1, 2]), digest);
    }
  }

  lemma BrokenArtifact(d: Disk, a: Digest, digest: seq<byte> -> Digest)
    requires a in d.artifacts && d.artifacts[a] in d.inodes && digest(d.inodes[d.artifacts[a]].content) != a
    ensures !ArtifactsOk(d, digest)
  {
  }
}
