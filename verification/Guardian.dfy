/** One pass of the core-file guardian as a function of the files it sees, and what every pass and every run of passes
    keeps. SHA-256 and the keyed signature are ideal: injective constructors. */
module Guardian {
  import opened Wrappers

  type Name = string
  type Bytes = seq<int>

  datatype Hash = Sha256(content: Bytes)

  const COPY_LIMIT: nat := 10 * 1024 * 1024

  /** What the guardian can find under a file name. */
  datatype Node =
    | Missing
    | Symlink(targetExists: bool)
    | Regular(content: Bytes)
    | Unreadable                   // can be listed, but opening it is denied
    | Directory                    // can be opened, but not read
    | Inaccessible                 // even its attributes are denied
    | Faulty                       // reading its attributes fails for another reason

  datatype Manifest = Manifest(updatedAt: int, files: map<Name, Hash>, guardianHash: Option<Hash>)

  /** The hash named by an approval token: absent or another text, a JSON null, or a hash. */
  datatype Claim = NoHash | Null | Hex(hash: Hash)

  datatype TokenData = TokenData(action: string, targetFile: string, expiresAt: real, approved: Claim, nonce: string)

  datatype Payload = OfManifest(manifest: Manifest) | OfToken(token: TokenData)

  datatype Signature = Hmac(key: string, payload: Payload) | Forged(text: string)

  datatype TokenFile = LinkFile | Garbage | TokenFile(data: TokenData, signature: Option<Signature>)

  /** A JSON document on disk. */
  datatype Doc<T> = Absent | Malformed | Doc(value: T)

  datatype State = Starting | Uninitialized | Trusted | EmergencyLock

  datatype World = World(
    state: State,
    expectedSelf: Option<Hash>,
    consumed: set<Signature>,                 // kept in memory
    current: map<Name, Node>,
    snaps: map<Name, Node>,
    manifest: Doc<Manifest>,
    manifestSig: Doc<Signature>,
    store: Doc<set<Signature>>,               // the persistent list of consumed tokens
    history: seq<Signature>)                  // the tokens consumed so far, in order

  /** What a pass finds besides the guardian's own files: token files in listing order, its script, the clock. */
  datatype Input = Input(approvals: seq<TokenFile>, unlocks: seq<TokenFile>, script: Node, now: real)

  datatype CopyError = ValueError | PermissionError | OsError

  /* ---------- files ---------- */

  function At(files: map<Name, Node>, f: Name): Node {
    if f in files then files[f] else Missing
  }

  predicate Exists(n: Node) {
    match n
    case Symlink(targetExists) => targetExists
    case Regular(_) => true
    case Unreadable => true
    case Directory => true
    case _ => false
  }

  /** The hash of a regular file; no hash for anything else; a permission error is raised. */
  function HashOf(n: Node): Result<Option<Hash>, CopyError> {
    match n
    case Regular(c) => Ok(Some(Sha256(c)))
    case Unreadable => Err(PermissionError)
    case Inaccessible => Err(PermissionError)
    case _ => Ok(None)
  }

  /** What an atomic copy leaves at the destination. At most `COPY_LIMIT` bytes are read. */
  function SafeCopy(src: Node, dst: Node, expected: Option<Hash>): Result<Node, CopyError> {
    match src
    case Regular(c) =>
      var read := if |c| <= COPY_LIMIT then c else c[..COPY_LIMIT];
      if expected.Some? && Sha256(read) != expected.value then Err(ValueError)
      else if dst.Inaccessible? then Err(PermissionError)
      else if dst.Directory? || dst.Faulty? then Err(OsError)
      else Ok(Regular(read))
    case Symlink(_) => Err(ValueError)
    case Missing => Err(ValueError)
    case Unreadable => Err(PermissionError)
    case Inaccessible => Err(PermissionError)
    case _ => Err(OsError)
  }

  /* ---------- tokens ---------- */

  predicate Verifies(key: string, payload: Payload, sig: Signature) {
    sig == Hmac(key, payload)
  }

  function Load(store: Doc<set<Signature>>): set<Signature> {
    match store case Doc(s) => s case _ => {}
  }

  function TryConsume(w: World, sig: Signature): (World, bool) {
    var stored := Load(w.store);
    if sig in stored then (w, false)
    else (w.(consumed := stored + {sig}, store := Doc(stored + {sig}), history := w.history + [sig]), true)
  }

  /** The checks on an unlock token other than its consumption. */
  predicate UnlockValid(key: string, t: TokenFile, now: real) {
    && t.TokenFile? && t.data.action == "UNLOCK_EMERGENCY_LOCK" && t.signature.Some?
    && t.data.expiresAt > now && Verifies(key, OfToken(t.data), t.signature.value)
  }

  function CheckUnlock(key: string, w: World, tokens: seq<TokenFile>, now: real): (World, bool) {
    if tokens == [] then (w, false)
    else if UnlockValid(key, tokens[0], now) && TryConsume(w, tokens[0].signature.value).1 then
      (TryConsume(w, tokens[0].signature.value).0.(state := Starting), true)
    else CheckUnlock(key, w, tokens[1..], now)
  }

  predicate ClaimMatches(claim: Claim, h: Option<Hash>) {
    match claim case NoHash => false case Null => h.None? case Hex(x) => h == Some(x)
  }

  /** The checks on an approval token for a file other than its consumption. */
  predicate ApprovalValid(key: string, w: World, t: TokenFile, f: Name, h: Option<Hash>, now: real) {
    && t.TokenFile? && t.data.targetFile != "ALL" && t.data.targetFile == f
    && t.signature.Some? && t.signature.value !in w.consumed
    && t.data.expiresAt > now && Verifies(key, OfToken(t.data), t.signature.value) && ClaimMatches(t.data.approved, h)
  }

  function FindApproval(key: string, w: World, tokens: seq<TokenFile>, f: Name, h: Option<Hash>, now: real)
      : (World, bool) {
    if tokens == [] then (w, false)
    else if ApprovalValid(key, w, tokens[0], f, h, now) && TryConsume(w, tokens[0].signature.value).1 then
      TryConsume(w, tokens[0].signature.value)
    else FindApproval(key, w, tokens[1..], f, h, now)
  }

  /* ---------- the manifest ---------- */

  predicate SnapshotsMatch(files: map<Name, Hash>, snaps: map<Name, Node>) {
    forall f :: f in files ==> HashOf(At(snaps, f)) == Ok(Some(files[f]))
  }

  function VerifyManifest(key: string, w: World): (World, bool) {
    if w.manifest.Absent? || w.manifestSig.Absent? then (w.(state := Uninitialized), false)
    else if w.manifest.Malformed? || w.manifestSig.Malformed? then (w.(state := EmergencyLock), false)
    else
      var m := w.manifest.value;
      if !Verifies(key, OfManifest(m), w.manifestSig.value) then (w.(state := EmergencyLock), false)
      else if m.guardianHash.None? then (w.(state := EmergencyLock), false)
      else if SnapshotsMatch(m.files, w.snaps) then (w.(expectedSelf := m.guardianHash), true)
      else (w.(expectedSelf := m.guardianHash, state := EmergencyLock), false)
  }

  function VerifySelf(w: World, script: Node): (World, bool) {
    if w.expectedSelf.Some? && HashOf(script) == Ok(w.expectedSelf) then (w, true)
    else (w.(state := EmergencyLock), false)
  }

  predicate Hashable(files: seq<Name>, snaps: map<Name, Node>) {
    forall f :: f in files ==> HashOf(At(snaps, f)).Ok?
  }

  function FilesMap(files: seq<Name>, snaps: map<Name, Node>): map<Name, Hash> {
    map f | f in files && HashOf(At(snaps, f)).Ok?
      && HashOf(At(snaps, f)).value.Some? :: HashOf(At(snaps, f)).value.value
  }

  /** Copies the approved file over its snapshot and signs a new manifest; an error may be raised before or after
      the copy. */
  function UpdateSnapshot(key: string, files: seq<Name>, w: World, f: Name, h: Option<Hash>, now: real)
      : (World, Option<CopyError>) {
    match SafeCopy(At(w.current, f), At(w.snaps, f), h)
    case Err(e) => (w, Some(e))
    case Ok(n) =>
      var w1 := w.(snaps := w.snaps[f := n]);
      if !Hashable(files, w1.snaps) then (w1, Some(PermissionError))
      else
        var m := Manifest(now.Floor, FilesMap(files, w1.snaps), w1.expectedSelf);
        (w1.(manifest := Doc(m), manifestSig := Doc(Hmac(key, OfManifest(m)))), None)
  }

  /* ---------- one file ---------- */

  /** Restores a file from its snapshot. */
  function Rollback(w: World, f: Name): (World, Option<CopyError>) {
    match HashOf(At(w.snaps, f))
    case Err(e) => (w, Some(e))
    case Ok(h) =>
      match SafeCopy(At(w.snaps, f), At(w.current, f), h)
      case Err(e) => (w, Some(e))
      case Ok(n) => (w.(current := w.current[f := n]), None)
  }

  function Lock(w: World): World {
    w.(state := EmergencyLock)
  }

  /** Enforcement of one file: the new world, and whether an exception leaves the per-file step. */
  function CheckFile(key: string, files: seq<Name>, w: World, f: Name, input: Input): (World, bool) {
    var src, snap := At(w.current, f), At(w.snaps, f);
    match src
    case Symlink(_) =>
      // permission and system errors of the rollback are caught here and lock the guardian
      if !Exists(snap) then (Lock(w), false)
      else
        (match Rollback(w, f)
         case (w1, None) => (w1, false)
         case (w1, Some(ValueError)) => (w1, true)
         case (w1, Some(_)) => (Lock(w1), false))
    case Missing =>
      if !Exists(snap) then (Lock(w), false)
      else (match Rollback(w, f) case (w1, None) => (w1, false) case (w1, Some(_)) => (w1, true))
    case Inaccessible => (Lock(w), false)
    case Faulty => (Lock(w), false)
    case _ => CheckContent(key, files, w, f, input)
  }

  /** The file exists and is no symlink: compare it with its snapshot. */
  function CheckContent(key: string, files: seq<Name>, w: World, f: Name, input: Input): (World, bool) {
    var src, snap := At(w.current, f), At(w.snaps, f);
    if !Exists(snap) then (w, false)
    else if HashOf(src).Err? || HashOf(snap).Err? then (Lock(w), false)
    else if HashOf(src) == HashOf(snap) then (w, false)
    else
      var h := HashOf(src).value;
      var (w1, approved) := FindApproval(key, w, input.approvals, f, h, input.now);
      if approved then
        (match UpdateSnapshot(key, files, w1, f, h, input.now)
         case (w2, None) => (w2, false)
         case (w2, Some(_)) => (w2, true))
      else
        (match Rollback(w1, f) case (w2, None) => (w2, false) case (w2, Some(_)) => (w2, true))
  }

  function CheckFiles(key: string, files: seq<Name>, w: World, todo: seq<Name>, input: Input): (World, bool)
    decreases |todo|
  {
    if todo == [] then (w, false)
    else
      var (w1, raised) := CheckFile(key, files, w, todo[0], input);
      var (w2, raised2) := CheckFiles(key, files, w1, todo[1..], input);
      (w2, raised || raised2)
  }

  /* ---------- one pass ---------- */

  /** The new world, the returned value, and whether some file raised an error. */
  function EnforceAll(key: string, files: seq<Name>, w: World, input: Input): (World, bool, bool) {
    var (w0, open) := if w.state == EmergencyLock then CheckUnlock(key, w, input.unlocks, input.now) else (w, true);
    if !open then (w0, false, false)
    else
      var (w1, trusted) := VerifyManifest(key, w0);
      if !trusted then (w1, false, false)
      else
        var (w2, intact) := VerifySelf(w1, input.script);
        if !intact then (w2, false, false)
        else
          var (w3, raised) := CheckFiles(key, files, w2, files, input);
          if !raised && w3.state !in {EmergencyLock, Uninitialized} then (w3.(state := Trusted), true, false)
          else (w3, true, raised)
  }

  /* ---------- what a clean pass guarantees ---------- */

  /** The file is neither missing nor a link nor out of reach, and equals its snapshot if that is a regular file. */
  ghost predicate Enforced(w: World, f: Name) {
    && (At(w.snaps, f).Regular? ==> At(w.current, f) == At(w.snaps, f))
    && (At(w.current, f).Regular? || At(w.current, f).Unreadable? || At(w.current, f).Directory?)
  }

  /** The stored manifest is genuine, names the guardian's hash, and matches the snapshots. */
  ghost predicate ManifestGood(key: string, w: World) {
    && w.manifest.Doc? && w.manifestSig == Doc(Hmac(key, OfManifest(w.manifest.value)))
    && w.manifest.value.guardianHash.Some? && w.expectedSelf == w.manifest.value.guardianHash
    && SnapshotsMatch(w.manifest.value.files, w.snaps)
  }

  lemma {:induction false} FindApprovalFrame(key: string, w: World, tokens: seq<TokenFile>, f: Name, h: Option<Hash>,
      now: real)
    ensures var w1 := FindApproval(key, w, tokens, f, h, now).0;
            w1 == w.(consumed := w1.consumed, store := w1.store, history := w1.history)
  {
    if tokens != [] { FindApprovalFrame(key, w, tokens[1..], f, h, now); }
  }

  lemma CheckContentGuarantee(key: string, files: seq<Name>, w: World, f: Name, input: Input)
    requires ManifestGood(key, w)
             && (At(w.current, f).Regular? || At(w.current, f).Unreadable? || At(w.current, f).Directory?)
    ensures var (w1, raised) := CheckContent(key, files, w, f, input);
            && (w1.state == w.state || w1.state == EmergencyLock)
            && (!raised && w1.state != EmergencyLock ==> ManifestGood(key, w1) && Enforced(w1, f))
            && (forall g :: g != f ==> At(w1.current, g) == At(w.current, g) && At(w1.snaps, g) == At(w.snaps, g))
  {
    var src := At(w.current, f);
    if HashOf(src).Ok? {
      FindApprovalFrame(key, w, input.approvals, f, HashOf(src).value, input.now);
    }
  }

  lemma CheckFileGuarantee(key: string, files: seq<Name>, w: World, f: Name, input: Input)
    requires ManifestGood(key, w)
    ensures var (w1, raised) := CheckFile(key, files, w, f, input);
            && (w1.state == w.state || w1.state == EmergencyLock)
            && (!raised && w1.state != EmergencyLock ==> ManifestGood(key, w1) && Enforced(w1, f))
            && (forall g :: g != f ==> At(w1.current, g) == At(w.current, g) && At(w1.snaps, g) == At(w.snaps, g))
  {
    if At(w.current, f).Regular? || At(w.current, f).Unreadable? || At(w.current, f).Directory? {
      CheckContentGuarantee(key, files, w, f, input);
    }
  }

  lemma {:induction false} LockPersists(key: string, files: seq<Name>, w: World, todo: seq<Name>, input: Input)
    requires w.state == EmergencyLock
    ensures CheckFiles(key, files, w, todo, input).0.state == EmergencyLock
    decreases |todo|
  {
    if todo != [] {
      CheckFileState(key, files, w, todo[0], input);
      LockPersists(key, files, CheckFile(key, files, w, todo[0], input).0, todo[1..], input);
    }
  }

  lemma CheckFileState(key: string, files: seq<Name>, w: World, f: Name, input: Input)
    ensures var w1 := CheckFile(key, files, w, f, input).0; w1.state == w.state || w1.state == EmergencyLock
  {
    if HashOf(At(w.current, f)).Ok? {
      FindApprovalFrame(key, w, input.approvals, f, HashOf(At(w.current, f)).value, input.now);
    }
  }

  lemma {:induction false} CheckFilesGuarantee(key: string, files: seq<Name>, w: World, done: set<Name>,
      todo: seq<Name>, input: Input)
    requires ManifestGood(key, w) && forall f :: f in done ==> Enforced(w, f)
    ensures var (w1, raised) := CheckFiles(key, files, w, todo, input);
            !raised && w1.state != EmergencyLock ==>
              ManifestGood(key, w1) && forall f :: f in done || f in todo ==> Enforced(w1, f)
    decreases |todo|
  {
    if todo != [] {
      var (w1, raised) := CheckFile(key, files, w, todo[0], input);
      CheckFileGuarantee(key, files, w, todo[0], input);
      if w1.state == EmergencyLock {
        LockPersists(key, files, w1, todo[1..], input);
      } else if !raised {
        forall f | f in done + {todo[0]} ensures Enforced(w1, f) {
          if f != todo[0] { assert Enforced(w, f); }
        }
        CheckFilesGuarantee(key, files, w1, done + {todo[0]}, todo[1..], input);
      }
    }
  }

  /** After a pass that returns true with no per-file error and no lock, whatever the files were before, no core file
      is missing, a link or out of reach, every core file with a regular snapshot is a regular file equal to its
      snapshot, and the stored manifest would be accepted again. */
  lemma CleanPassEnforces(key: string, files: seq<Name>, w: World, input: Input)
    requires var (w1, returned, raised) := EnforceAll(key, files, w, input);
             returned && !raised && w1.state != EmergencyLock
    ensures var w1 := EnforceAll(key, files, w, input).0;
            && (forall f :: f in files && At(w1.snaps, f).Regular? ==> At(w1.current, f) == At(w1.snaps, f))
            && (forall f :: f in files ==>
                 At(w1.current, f).Regular? || At(w1.current, f).Unreadable? || At(w1.current, f).Directory?)
            && VerifyManifest(key, w1).1
  {
    var (w0, _) := if w.state == EmergencyLock then CheckUnlock(key, w, input.unlocks, input.now) else (w, true);
    var w2 := VerifySelf(VerifyManifest(key, w0).0, input.script).0;
    CheckFilesGuarantee(key, files, w2, {}, files, input);
    var w1 := EnforceAll(key, files, w, input).0;
    assert forall f :: f in files ==> Enforced(w1, f);
  }

  /** A file to which access is denied is never overwritten, and the guardian locks; only a file without a snapshot that
      merely cannot be opened is passed over. */
  lemma DeniedFilesAreNotOverwritten(key: string, files: seq<Name>, w: World, f: Name, input: Input)
    requires At(w.current, f) in {Unreadable, Inaccessible, Faulty}
    ensures var (w1, raised) := CheckFile(key, files, w, f, input);
            && !raised && w1 == w.(state := w1.state)
            && (w1.state == EmergencyLock || (w1 == w && At(w.current, f) == Unreadable && !Exists(At(w.snaps, f))))
  {
  }

  /** Some listed token is valid for the present content of a regular file and was not consumed before. */
  ghost predicate UnusedApproval(key: string, w: World, f: Name, input: Input)
    requires At(w.current, f).Regular?
  {
    exists t :: t in input.approvals && ApprovalValid(key, w, t, f, Some(Sha256(At(w.current, f).content)), input.now)
      && t.signature.value !in Load(w.store)
  }

  /** An approved change takes effect: if the file is a readable regular file within the copy limit that differs from
      its regular snapshot, the snapshot becomes the file's content exactly when some listed token is valid for it and
      unused; otherwise the file becomes its snapshot again, provided that is within the copy limit. */
  lemma ChangeIsApprovedOrUndone(key: string, files: seq<Name>, w: World, f: Name, input: Input)
    requires At(w.current, f).Regular? && At(w.snaps, f).Regular? && At(w.current, f) != At(w.snaps, f)
    requires |At(w.current, f).content| <= COPY_LIMIT && |At(w.snaps, f).content| <= COPY_LIMIT
    ensures var w1 := CheckFile(key, files, w, f, input).0;
            var approved := UnusedApproval(key, w, f, input);
            && (approved ==> At(w1.snaps, f) == At(w.current, f) == At(w1.current, f))
            && (!approved ==> At(w1.current, f) == At(w.snaps, f) == At(w1.snaps, f))
  {
    var h := Some(Sha256(At(w.current, f).content));
    FindApprovalConsumes(key, w, input.approvals, f, h, input.now);
    FindApprovalFrame(key, w, input.approvals, f, h, input.now);
  }

  /* ---------- what every pass respects ---------- */

  /** An unexpired, genuine token for this file and content that this step consumed. */
  ghost predicate ApprovedBy(key: string, before: World, after: World, t: TokenFile, f: Name, content: Bytes,
      now: real) {
    && t.TokenFile? && t.signature == Some(Hmac(key, OfToken(t.data))) && t.data.targetFile == f && f != "ALL"
    && t.data.expiresAt > now && t.data.approved == Hex(Sha256(content))
    && t.signature.value !in Load(before.store) && t.signature.value in Load(after.store)
  }

  /** The stored tokens only grow, by exactly the tokens the history records. */
  ghost predicate Consumed(w: World, w1: World) {
    && Load(w.store) <= Load(w1.store) && w.history <= w1.history
    && (forall i, j :: |w.history| <= i < j < |w1.history| ==> w1.history[i] != w1.history[j])
    && (forall i :: |w.history| <= i < |w1.history| ==>
         w1.history[i] !in Load(w.store) && w1.history[i] in Load(w1.store))
    && (w1.history == w.history ==> w1.store == w.store)
  }

  lemma ConsumedTransitive(a: World, b: World, c: World)
    requires Consumed(a, b) && Consumed(b, c)
    ensures Consumed(a, c)
  {
    forall i, j | |a.history| <= i < j < |c.history| ensures c.history[i] != c.history[j] {
      if j < |b.history| { assert c.history[i] == b.history[i] && c.history[j] == b.history[j]; }
      if i < |b.history| <= j { assert c.history[i] == b.history[i]; }
    }
    forall i | |a.history| <= i < |c.history| ensures c.history[i] !in Load(a.store) && c.history[i] in Load(c.store) {
      if i < |b.history| { assert c.history[i] == b.history[i]; }
    }
  }

  lemma {:induction false} FindApprovalConsumes(key: string, w: World, tokens: seq<TokenFile>, f: Name, h: Option<Hash>,
      now: real)
    ensures var (w1, found) := FindApproval(key, w, tokens, f, h, now);
            && Consumed(w, w1)
            && (!found ==> w1 == w && forall t :: t in tokens && ApprovalValid(key, w, t, f, h, now) ==>
                 t.signature.value in Load(w.store))
            && (found ==> exists t :: t in tokens && ApprovalValid(key, w, t, f, h, now)
                            && t.signature.value !in Load(w.store) && t.signature.value in Load(w1.store))
  {
    if tokens != [] {
      FindApprovalConsumes(key, w, tokens[1..], f, h, now);
      if ApprovalValid(key, w, tokens[0], f, h, now) && TryConsume(w, tokens[0].signature.value).1 {
        assert tokens[0] in tokens;
      }
    }
  }

  /** A valid unlock token was consumed between two worlds. */
  ghost predicate UnlockPaid(key: string, w: World, w1: World, tokens: seq<TokenFile>, now: real) {
    exists t :: t in tokens && UnlockValid(key, t, now) && t.signature.value !in Load(w.store)
      && t.signature.value in Load(w1.store)
  }

  lemma {:induction false} CheckUnlockConsumes(key: string, w: World, tokens: seq<TokenFile>, now: real)
    ensures var (w1, found) := CheckUnlock(key, w, tokens, now);
            && Consumed(w, w1) && w1.snaps == w.snaps && w1.current == w.current
            && (!found ==> w1 == w && forall t :: t in tokens && UnlockValid(key, t, now) ==>
                 t.signature.value in Load(w.store))
            && (found ==> w1.state == Starting && UnlockPaid(key, w, w1, tokens, now))
  {
    if tokens != [] {
      CheckUnlockConsumes(key, w, tokens[1..], now);
      if UnlockValid(key, tokens[0], now) && TryConsume(w, tokens[0].signature.value).1 { assert tokens[0] in tokens; }
    }
  }

  /** A snapshot changes only to a content for which a token was consumed. */
  ghost predicate SnapshotsGuarded(key: string, w: World, w1: World, input: Input) {
    forall g :: At(w1.snaps, g) != At(w.snaps, g) ==>
      At(w1.snaps, g).Regular?
        && exists t :: t in input.approvals && ApprovedBy(key, w, w1, t, g, At(w1.snaps, g).content, input.now)
  }

  lemma CheckContentRespects(key: string, files: seq<Name>, w: World, f: Name, input: Input)
    ensures var w1 := CheckContent(key, files, w, f, input).0;
            Consumed(w, w1) && SnapshotsGuarded(key, w, w1, input)
  {
    var src := At(w.current, f);
    if HashOf(src).Ok? {
      var h := HashOf(src).value;
      FindApprovalConsumes(key, w, input.approvals, f, h, input.now);
      FindApprovalFrame(key, w, input.approvals, f, h, input.now);
    }
  }

  lemma CheckFileRespects(key: string, files: seq<Name>, w: World, f: Name, input: Input)
    ensures var w1 := CheckFile(key, files, w, f, input).0;
            Consumed(w, w1) && SnapshotsGuarded(key, w, w1, input)
  {
    if At(w.current, f).Regular? || At(w.current, f).Unreadable? || At(w.current, f).Directory? {
      CheckContentRespects(key, files, w, f, input);
    }
  }

  lemma {:induction false} CheckFilesRespects(key: string, files: seq<Name>, w: World, todo: seq<Name>, input: Input)
    ensures var w1 := CheckFiles(key, files, w, todo, input).0;
            Consumed(w, w1) && SnapshotsGuarded(key, w, w1, input)
    decreases |todo|
  {
    if todo != [] {
      var w1 := CheckFile(key, files, w, todo[0], input).0;
      CheckFileRespects(key, files, w, todo[0], input);
      CheckFilesRespects(key, files, w1, todo[1..], input);
      var w2 := CheckFiles(key, files, w1, todo[1..], input).0;
      ConsumedTransitive(w, w1, w2);
      GuardedTransitive(key, w, w1, w2, input);
    }
  }

  lemma GuardedTransitive(key: string, w: World, w1: World, w2: World, input: Input)
    requires Consumed(w, w1) && Consumed(w1, w2)
    requires SnapshotsGuarded(key, w, w1, input) && SnapshotsGuarded(key, w1, w2, input)
    ensures SnapshotsGuarded(key, w, w2, input)
  {
    forall g | At(w2.snaps, g) != At(w.snaps, g)
      ensures At(w2.snaps, g).Regular?
              && exists t :: t in input.approvals && ApprovedBy(key, w, w2, t, g, At(w2.snaps, g).content, input.now)
    {
      if At(w2.snaps, g) != At(w1.snaps, g) {
        var t :| t in input.approvals && ApprovedBy(key, w1, w2, t, g, At(w2.snaps, g).content, input.now);
        assert ApprovedBy(key, w, w2, t, g, At(w2.snaps, g).content, input.now);
      } else {
        var t :| t in input.approvals && ApprovedBy(key, w, w1, t, g, At(w1.snaps, g).content, input.now);
        assert ApprovedBy(key, w, w2, t, g, At(w2.snaps, g).content, input.now);
      }
    }
  }

  /** In every pass: a snapshot changes only by consuming an unexpired genuine token that names the file and the hash
      of its new content; an emergency lock is left only by consuming a valid unlock token; and no token consumed
      before is consumed again. */
  lemma PassRespectsTokens(key: string, files: seq<Name>, w: World, input: Input)
    ensures var w1 := EnforceAll(key, files, w, input).0;
            && SnapshotsGuarded(key, w, w1, input)
            && Consumed(w, w1)
            && (w.state == EmergencyLock && w1 != w ==> UnlockPaid(key, w, w1, input.unlocks, input.now))
  {
    CheckUnlockConsumes(key, w, input.unlocks, input.now);
    if w.state != EmergencyLock {
      OpenPassRespectsTokens(key, files, w, input);
    } else if CheckUnlock(key, w, input.unlocks, input.now).1 {
      var w0 := CheckUnlock(key, w, input.unlocks, input.now).0;
      var w1 := EnforceAll(key, files, w, input).0;
      OpenPassRespectsTokens(key, files, w0, input);
      assert w1 == EnforceAll(key, files, w0, input).0;
      ConsumedTransitive(w, w0, w1);
      GuardedTransitive(key, w, w0, w1, input);
    }
  }

  lemma VerificationFrame(key: string, w: World, script: Node)
    ensures var w1 := VerifyManifest(key, w).0; w1 == w.(state := w1.state, expectedSelf := w1.expectedSelf)
    ensures var w1 := VerifySelf(VerifyManifest(key, w).0, script).0;
            w1 == w.(state := w1.state, expectedSelf := w1.expectedSelf)
  {
  }

  lemma OpenPassRespectsTokens(key: string, files: seq<Name>, w: World, input: Input)
    requires w.state != EmergencyLock
    ensures var w1 := EnforceAll(key, files, w, input).0;
            SnapshotsGuarded(key, w, w1, input) && Consumed(w, w1)
  {
    VerificationFrame(key, w, input.script);
    var w2 := VerifySelf(VerifyManifest(key, w).0, input.script).0;
    CheckFilesRespects(key, files, w2, files, input);
    var w3 := CheckFiles(key, files, w2, files, input).0;
    SameTokens(key, w, w2, w3, input);
  }

  lemma SameTokens(key: string, w: World, w2: World, w3: World, input: Input)
    requires w2 == w.(state := w2.state, expectedSelf := w2.expectedSelf)
    requires Consumed(w2, w3) && SnapshotsGuarded(key, w2, w3, input)
    ensures forall s :: Consumed(w, w3.(state := s)) && SnapshotsGuarded(key, w, w3.(state := s), input)
    ensures Consumed(w, w3) && SnapshotsGuarded(key, w, w3, input)
    ensures Consumed(w, w2) && SnapshotsGuarded(key, w, w2, input)
  {
    forall s ensures Consumed(w, w3.(state := s)) && SnapshotsGuarded(key, w, w3.(state := s), input) {
      var w4 := w3.(state := s);
      forall g | At(w4.snaps, g) != At(w.snaps, g)
        ensures At(w4.snaps, g).Regular?
                && exists t :: t in input.approvals && ApprovedBy(key, w, w4, t, g, At(w4.snaps, g).content, input.now)
      {
        var t :| t in input.approvals && ApprovedBy(key, w2, w3, t, g, At(w3.snaps, g).content, input.now);
        assert ApprovedBy(key, w, w4, t, g, At(w4.snaps, g).content, input.now);
      }
    }
    assert w3 == w3.(state := w3.state);
  }

  /* ---------- runs ---------- */

  /** Before each pass the environment replaces the current files at will; the guardian's own directory is
      left alone. */
  datatype Turn = Turn(current: map<Name, Node>, input: Input)

  function Pass(key: string, files: seq<Name>, w: World, t: Turn): World {
    EnforceAll(key, files, w.(current := t.current), t.input).0
  }

  function Run(key: string, files: seq<Name>, w: World, turns: seq<Turn>): World
    decreases |turns|
  {
    if turns == [] then w else Run(key, files, Pass(key, files, w, turns[0]), turns[1..])
  }

  /** Over every run no token is consumed twice, and none that was stored before the run is consumed at all. */
  lemma {:induction false} RunConsumesOnce(key: string, files: seq<Name>, w: World, turns: seq<Turn>)
    ensures Consumed(w, Run(key, files, w, turns))
    decreases |turns|
  {
    if turns != [] {
      var w1 := Pass(key, files, w, turns[0]);
      PassRespectsTokens(key, files, w.(current := turns[0].current), turns[0].input);
      assert Consumed(w, w1);
      RunConsumesOnce(key, files, w1, turns[1..]);
      ConsumedTransitive(w, w1, Run(key, files, w1, turns[1..]));
    }
  }

  /** The worlds of a run: the i-th one is reached by the first i turns. */
  function WorldAt(key: string, files: seq<Name>, w: World, turns: seq<Turn>, i: nat): World
    requires i <= |turns|
  {
    Run(key, files, w, turns[..i])
  }

  lemma {:induction false} RunSplit(key: string, files: seq<Name>, w: World, turns: seq<Turn>, i: nat)
    requires i < |turns|
    ensures WorldAt(key, files, w, turns, i + 1) == Pass(key, files, WorldAt(key, files, w, turns, i), turns[i])
    decreases i
  {
    if i == 0 {
      assert turns[..1] == [turns[0]] && turns[..1][1..] == [] && turns[..0] == [];
      assert Run(key, files, w, turns[..1]) == Run(key, files, Pass(key, files, w, turns[0]), []);
    } else {
      assert turns[..i + 1][1..] == turns[1..][..i] && turns[..i][1..] == turns[1..][..i - 1];
      RunSplit(key, files, Pass(key, files, w, turns[0]), turns[1..], i - 1);
    }
  }

  /** Over every run, each change of a snapshot and each departure from the emergency lock is paid for by a token that
      is consumed in that very turn, and no two consumptions of the run use the same signature. */
  lemma RunRespectsTokens(key: string, files: seq<Name>, w: World, turns: seq<Turn>, i: nat)
    requires i < |turns|
    ensures var a, b := WorldAt(key, files, w, turns, i), WorldAt(key, files, w, turns, i + 1);
            && SnapshotsGuarded(key, a, b, turns[i].input)
            && (a.state == EmergencyLock && b.state != EmergencyLock ==>
                 UnlockPaid(key, a, b, turns[i].input.unlocks, turns[i].input.now))
            && Consumed(w, b)
  {
    var a := WorldAt(key, files, w, turns, i);
    RunSplit(key, files, w, turns, i);
    PassRespectsTokens(key, files, a.(current := turns[i].current), turns[i].input);
    RunConsumesOnce(key, files, w, turns[..i + 1]);
  }

  /** A pass that returns true with no per-file error and no lock ends TRUSTED if and only if the guardian was not
      UNINITIALIZED before it. */
  lemma CleanPassTrustsIff(key: string, files: seq<Name>, w: World, input: Input)
    requires var (w1, returned, raised) := EnforceAll(key, files, w, input);
             returned && !raised && w1.state != EmergencyLock
    ensures EnforceAll(key, files, w, input).0.state == Trusted <==> w.state != Uninitialized
    ensures EnforceAll(key, files, w, input).0.state in {Trusted, Uninitialized}
  {
    var (w0, _) := if w.state == EmergencyLock then CheckUnlock(key, w, input.unlocks, input.now) else (w, true);
    CheckUnlockConsumes(key, w, input.unlocks, input.now);
    var w2 := VerifySelf(VerifyManifest(key, w0).0, input.script).0;
    assert w2.state == w0.state;
    CheckFilesState(key, files, w2, files, input);
  }

  /** Whatever a pass finds, a guardian that once found no manifest does not become TRUSTED. */
  lemma UninitializedStays(key: string, files: seq<Name>, w: World, input: Input)
    requires w.state == Uninitialized
    ensures EnforceAll(key, files, w, input).0.state in {Uninitialized, EmergencyLock}
  {
    var w2 := VerifySelf(VerifyManifest(key, w).0, input.script).0;
    CheckFilesState(key, files, w2, files, input);
  }

  /** A guardian's world with one core file that equals its snapshot, and a genuine manifest. */
  function Healthy(key: string, state: State, f: Name, content: Bytes, script: Bytes): World {
    var m := Manifest(0, map[f := Sha256(content)], Some(Sha256(script)));
    World(state, None, {}, map[f := Regular(content)], map[f := Regular(content)],
          Doc(m), Doc(Hmac(key, OfManifest(m))), Doc({}), [])
  }

  /** In such a world every pass succeeds, but one that started UNINITIALIZED stays so. */
  lemma HealthyPass(key: string, state: State, f: Name, content: Bytes, script: Bytes, now: real)
    requires state != EmergencyLock
    ensures var (w1, returned, raised) :=
            EnforceAll(key, [f], Healthy(key, state, f, content, script), Input([], [], Regular(script), now));
            returned && !raised && w1.state == if state == Uninitialized then Uninitialized else Trusted
  {
    var w := Healthy(key, state, f, content, script);
    var input := Input([], [], Regular(script), now);
    var w2 := w.(expectedSelf := Some(Sha256(script)));
    assert VerifyManifest(key, w) == (w2, true);
    assert VerifySelf(w2, input.script) == (w2, true);
    assert CheckFile(key, [f], w2, f, input) == (w2, false);
    assert CheckFiles(key, [f], w2, [], input) == (w2, false);
    assert CheckFiles(key, [f], w2, [f], input) == (w2, false);
  }

  lemma {:induction false} CheckFilesState(key: string, files: seq<Name>, w: World, todo: seq<Name>, input: Input)
    ensures var w1 := CheckFiles(key, files, w, todo, input).0; w1.state == w.state || w1.state == EmergencyLock
    decreases |todo|
  {
    if todo != [] {
      CheckFileState(key, files, w, todo[0], input);
      CheckFilesState(key, files, CheckFile(key, files, w, todo[0], input).0, todo[1..], input);
    }
  }
}
