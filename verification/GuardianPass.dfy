/** What one pass of the guardian does, in terms of what it finds: when it returns true, what it leaves behind when it
    does not, and what becomes of every kind of file. */
module GuardianPass {
  import opened Wrappers
  import opened Guardian

  /* ---------- when a pass returns true ---------- */

  /** A genuine, unexpired token that opens the emergency lock. */
  predicate OpensLock(key: string, t: TokenFile, now: real) {
    && t.TokenFile? && t.data.action == "UNLOCK_EMERGENCY_LOCK" && t.data.expiresAt > now
    && t.signature == Some(Hmac(key, OfToken(t.data)))
  }

  /** The guardian is not locked, or a token that was not consumed before opens the lock. */
  ghost predicate Opened(key: string, w: World, input: Input) {
    w.state != EmergencyLock
    || exists t :: t in input.unlocks && OpensLock(key, t, input.now) && t.signature.value !in Load(w.store)
  }

  /** The stored manifest is signed, names the hash of this script, and matches all its snapshots. */
  ghost predicate Trustworthy(key: string, w: World, script: Bytes) {
    && w.manifest.Doc? && w.manifestSig == Doc(Hmac(key, OfManifest(w.manifest.value)))
    && w.manifest.value.guardianHash == Some(Sha256(script))
    && forall f :: f in w.manifest.value.files ==>
         At(w.snaps, f).Regular? && Sha256(At(w.snaps, f).content) == w.manifest.value.files[f]
  }

  lemma UnlockKeeps(key: string, w: World, tokens: seq<TokenFile>, now: real)
    ensures var (w1, found) := CheckUnlock(key, w, tokens, now);
            && w1 == w.(state := w1.state, consumed := w1.consumed, store := w1.store, history := w1.history)
            && (found <==> exists t :: t in tokens && OpensLock(key, t, now) && t.signature.value !in Load(w.store))
            && (found ==> w1.state == Starting)
            && (!found ==> w1 == w)
  {
    CheckUnlockConsumes(key, w, tokens, now);
    forall t ensures UnlockValid(key, t, now) <==> OpensLock(key, t, now) { }
    UnlockFrame(key, w, tokens, now);
  }

  lemma {:induction false} UnlockFrame(key: string, w: World, tokens: seq<TokenFile>, now: real)
    ensures var w1 := CheckUnlock(key, w, tokens, now).0;
            w1 == w.(state := w1.state, consumed := w1.consumed, store := w1.store, history := w1.history)
  {
    if tokens != [] { UnlockFrame(key, w, tokens[1..], now); }
  }

  /** The two checks after the unlocking: both pass exactly for a trustworthy manifest that names the script found. */
  lemma ChecksIff(key: string, w: World, script: Node)
    ensures var (w1, trusted) := VerifyManifest(key, w);
            var (w2, intact) := VerifySelf(w1, script);
            && (trusted && intact <==> exists c :: script == Regular(c) && Trustworthy(key, w, c))
            && (trusted && intact ==> w2 == w.(expectedSelf := w.manifest.value.guardianHash))
            && (!trusted ==>
                 w1.state == if w.manifest.Absent? || w.manifestSig.Absent? then Uninitialized else EmergencyLock)
            && (trusted ==> w.manifest.Doc? && w.manifestSig.Doc?)
            && (trusted && !intact ==> w2.state == EmergencyLock)
  {
    var (w1, trusted) := VerifyManifest(key, w);
    var (w2, intact) := VerifySelf(w1, script);
    if trusted && intact {
      assert script.Regular? && Trustworthy(key, w, script.content);
    }
    if c :| script == Regular(c) && Trustworthy(key, w, c) {
      assert SnapshotsMatch(w.manifest.value.files, w.snaps);
    }
  }

  /** A pass returns true if and only if the guardian is open, the stored manifest is trustworthy, and the script that
      is found is the one whose hash it names. Otherwise no file, snapshot or manifest is touched: a locked guardian
      stays as it is, one without a manifest or its signature becomes UNINITIALIZED, and any other one locks. */
  lemma PassReturnsIff(key: string, files: seq<Name>, w: World, input: Input)
    ensures var (w1, returned, raised) := EnforceAll(key, files, w, input);
            && (returned <==> Opened(key, w, input) && exists c :: input.script == Regular(c) && Trustworthy(key, w, c))
            && (!returned ==>
                  && !raised && w1.current == w.current && w1.snaps == w.snaps
                  && w1.manifest == w.manifest && w1.manifestSig == w.manifestSig
                  && (!Opened(key, w, input) ==> w1 == w)
                  && (Opened(key, w, input) ==>
                        w1.state == if w.manifest.Absent?
                          || w.manifestSig.Absent? then Uninitialized else EmergencyLock))
  {
    UnlockKeeps(key, w, input.unlocks, input.now);
    var (w0, open) := if w.state == EmergencyLock then CheckUnlock(key, w, input.unlocks, input.now) else (w, true);
    assert open <==> Opened(key, w, input);
    ChecksIff(key, w0, input.script);
    VerificationFrame(key, w0, input.script);
    forall c ensures Trustworthy(key, w, c) <==> Trustworthy(key, w0, c) { }
  }

  /** A guardian whose own script was changed locks and enforces nothing, whatever else is in order. */
  lemma TamperedScriptLocks(key: string, files: seq<Name>, w: World, input: Input, script: Bytes)
    requires Opened(key, w, input) && Trustworthy(key, w, script) && input.script != Regular(script)
    ensures var (w1, returned, _) := EnforceAll(key, files, w, input);
            && !returned && w1.state == EmergencyLock
            && w1.current == w.current && w1.snaps == w.snaps && w1.manifest == w.manifest
  {
    PassReturnsIff(key, files, w, input);
    forall c | Trustworthy(key, w, c) ensures c == script { assert Sha256(c) == Sha256(script); }
  }

  /* ---------- one file ---------- */

  /** There is nothing at the snapshot's place that could be opened. */
  predicate NoSnapshot(snap: Node) {
    snap in {Missing, Symlink(false), Inaccessible, Faulty}
  }

  /** A missing or linked file is restored from a regular snapshot; without a snapshot the guardian locks, and a
      snapshot that cannot be copied makes it lock or raise an error. */
  lemma GoneFile(key: string, files: seq<Name>, w: World, f: Name, input: Input)
    requires At(w.current, f).Missing? || At(w.current, f).Symlink?
    ensures var (r, snap) := (CheckFile(key, files, w, f, input), At(w.snaps, f));
            && (NoSnapshot(snap) ==> r == (w.(state := EmergencyLock), false))
            && (snap.Regular? && |snap.content| <= 10485760 ==> r == (w.(current := w.current[f := snap]), false))
            && (snap.Regular? && |snap.content| > 10485760 ==> r == (w, true))
            && (snap in {Unreadable, Directory} ==>
                  r == if At(w.current, f).Missing? then (w, true) else (w.(state := EmergencyLock), false))
            && (snap == Symlink(true) ==> r == (w, true))
  {
    var snap := At(w.snaps, f);
    if snap.Regular? && |snap.content| > 10485760 { CutDiffers(snap.content); }
  }

  lemma CutDiffers(c: Bytes)
    requires |c| > COPY_LIMIT
    ensures Sha256(c[..COPY_LIMIT]) != Sha256(c)
  {
    assert |c[..COPY_LIMIT]| != |c|;
  }

  /** A file that is there: without a snapshot, or equal to a regular one, it is left alone; if its attributes, its
      content or the snapshot's content cannot be read, the guardian locks. */
  lemma PresentFile(key: string, files: seq<Name>, w: World, f: Name, input: Input)
    requires !At(w.current, f).Missing? && !At(w.current, f).Symlink?
    ensures var (r, src, snap) := (CheckFile(key, files, w, f, input), At(w.current, f), At(w.snaps, f));
            && (src in {Inaccessible, Faulty} ==> r == (w.(state := EmergencyLock), false))
            && (src !in {Inaccessible, Faulty} && NoSnapshot(snap) ==> r == (w, false))
            && (src !in {Inaccessible, Faulty} && !NoSnapshot(snap) && (src == Unreadable || snap == Unreadable) ==>
                  r == (w.(state := EmergencyLock), false))
            && (src.Regular? && src == snap ==> r == (w, false))
  {
  }

  /** A file that is there, without an approval, when it or its snapshot is not a regular file within the copy limit:
      two that are not regular count as equal, and otherwise nothing is changed and an error is raised. */
  lemma IrregularFile(key: string, files: seq<Name>, w: World, f: Name, input: Input)
    requires At(w.current, f).Regular? || At(w.current, f).Directory?
    requires At(w.snaps, f) in {Directory, Symlink(true)} || At(w.snaps, f).Regular?
    requires input.approvals == []
    ensures var (r, src, snap) := (CheckFile(key, files, w, f, input), At(w.current, f), At(w.snaps, f));
            && (src.Directory? && !snap.Regular? ==> r == (w, false))
            && (src.Directory? && snap.Regular? ==> r == (w, true))
            && (src.Regular? && !snap.Regular? ==> r == (w, true))
            && (src.Regular? && snap.Regular? && src != snap && |snap.content| > 10485760 ==> r == (w, true))
  {
    var snap := At(w.snaps, f);
    if snap.Regular? && |snap.content| > 10485760 { CutDiffers(snap.content); }
  }

  /** The manifest is signed, names the guardian's own hash, and the hash of each regular snapshot of a core file. */
  ghost predicate SignedFor(key: string, files: seq<Name>, w: World) {
    && w.manifest.Doc? && w.manifestSig == Doc(Hmac(key, OfManifest(w.manifest.value)))
    && w.manifest.value.guardianHash == w.expectedSelf
    && (forall g :: g in w.manifest.value.files <==> g in files && At(w.snaps, g).Regular?)
    && (forall g :: g in w.manifest.value.files ==> w.manifest.value.files[g] == Sha256(At(w.snaps, g).content))
  }

  lemma UpdateSigns(key: string, files: seq<Name>, w: World, f: Name, h: Option<Hash>, now: real)
    ensures var (w1, error) := UpdateSnapshot(key, files, w, f, h, now);
            && (error.None? ==> SignedFor(key, files, w1))
            && (error.Some? ==> w1.manifest == w.manifest && w1.manifestSig == w.manifestSig)
            && (At(w.current, f).Regular? && |At(w.current, f).content| <= 10485760 && At(w.snaps, f).Regular?
                && h == Some(Sha256(At(w.current, f).content)) ==>
                  (error.None? <==> forall g :: g in files && g != f ==> At(w.snaps, g) !in {Unreadable, Inaccessible}))
  {
    assert forall g :: g != f ==> At(UpdateSnapshot(key, files, w, f, h, now).0.snaps, g) == At(w.snaps, g);
  }

  /** An approved change makes the guardian sign a new manifest that names all its snapshots, unless the snapshot of
      another core file cannot be read; then an error is raised and the old manifest stays. */
  lemma ApprovedChangeIsSigned(key: string, files: seq<Name>, w: World, f: Name, input: Input)
    requires At(w.current, f).Regular? && At(w.snaps, f).Regular? && At(w.current, f) != At(w.snaps, f)
    requires |At(w.current, f).content| <= 10485760 && UnusedApproval(key, w, f, input)
    ensures var (w1, raised) := CheckFile(key, files, w, f, input);
            && (raised <==> exists g :: g in files && g != f && At(w.snaps, g) in {Unreadable, Inaccessible})
            && (!raised ==> SignedFor(key, files, w1))
            && (raised ==> w1.manifest == w.manifest && w1.manifestSig == w.manifestSig)
  {
    var h := Some(Sha256(At(w.current, f).content));
    FindApprovalConsumes(key, w, input.approvals, f, h, input.now);
    FindApprovalFrame(key, w, input.approvals, f, h, input.now);
    UpdateSigns(key, files, FindApproval(key, w, input.approvals, f, h, input.now).0, f, h, input.now);
  }

  /* ---------- an attack without tokens ---------- */

  /** The file was left alone, changed, deleted, or replaced by a link, and its snapshot can be copied back. */
  predicate Restorable(w: World, f: Name) {
    && At(w.snaps, f).Regular? && |At(w.snaps, f).content| <= 10485760
    && (At(w.current, f).Missing? || At(w.current, f).Symlink?
        || (At(w.current, f).Regular? && |At(w.current, f).content| <= 10485760))
  }

  lemma FileIsRestored(key: string, files: seq<Name>, w: World, f: Name, input: Input)
    requires Restorable(w, f) && input.approvals == []
    ensures CheckFile(key, files, w, f, input) == (w.(current := w.current[f := At(w.snaps, f)]), false)
            || (CheckFile(key, files, w, f, input) == (w, false) && At(w.current, f) == At(w.snaps, f))
  {
    if At(w.current, f).Regular? {
      if At(w.current, f) == At(w.snaps, f) { PresentFile(key, files, w, f, input); }
    } else {
      GoneFile(key, files, w, f, input);
    }
  }

  lemma {:induction false} FilesAreRestored(key: string, files: seq<Name>, w: World, todo: seq<Name>, input: Input)
    requires (forall f :: f in todo ==> Restorable(w, f)) && input.approvals == []
    ensures var (w1, raised) := CheckFiles(key, files, w, todo, input);
            && !raised && w1 == w.(current := w1.current)
            && forall f :: At(w1.current, f) == if f in todo then At(w.snaps, f) else At(w.current, f)
    decreases |todo|
  {
    if todo != [] {
      FileIsRestored(key, files, w, todo[0], input);
      var w1 := CheckFile(key, files, w, todo[0], input).0;
      assert w1 == w.(current := w1.current);
      assert forall f :: At(w1.current, f) == if f == todo[0] then At(w.snaps, f) else At(w.current, f);
      forall f | f in todo[1..] ensures Restorable(w1, f) { assert f in todo && Restorable(w, f); }
      FilesAreRestored(key, files, w1, todo[1..], input);
    }
  }

  /** Without approval tokens one pass of an intact guardian undoes every change: whichever core files were changed,
      deleted or replaced by links, all of them become their snapshots again, nothing else changes, and the guardian
      reports success and trusts the result unless it was never initialised. */
  lemma AttackIsUndone(key: string, files: seq<Name>, w: World, input: Input, script: Bytes)
    requires w.state != EmergencyLock && Trustworthy(key, w, script) && input.script == Regular(script)
    requires (forall f :: f in files ==> Restorable(w, f)) && input.approvals == []
    ensures var (w1, returned, raised) := EnforceAll(key, files, w, input);
            && returned && !raised
            && w1.state == (if w.state == Uninitialized then Uninitialized else Trusted)
            && w1 == w.(current := w1.current, state := w1.state, expectedSelf := w.manifest.value.guardianHash)
            && forall f :: At(w1.current, f) == if f in files then At(w.snaps, f) else At(w.current, f)
  {
    ChecksIff(key, w, input.script);
    var w2 := w.(expectedSelf := w.manifest.value.guardianHash);
    assert VerifySelf(VerifyManifest(key, w).0, input.script) == (w2, true);
    forall f | f in files ensures Restorable(w2, f) { assert Restorable(w, f); }
    FilesAreRestored(key, files, w2, files, input);
  }
}
