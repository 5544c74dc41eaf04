/** The guardian object: its fields, the files it owns, and the loops over tokens, manifest entries and core files. */
module GuardianDaemon {
  import opened Wrappers
  import opened Guardian

  const IMMUTABLE_FILES: seq<Name> := [
    "00_Constitution.md", "01_Core.md", "02_Policy.md", "19_Config.md", "20_SecurityFilter.md",
      "27_SafetyPermission.md"]

  class GuardianV22 {
    const trustRootKey: string
    const immutableFiles: seq<Name>
    var state: State
    var expectedSelf: Option<Hash>
    var consumed: set<Signature>
    var current: map<Name, Node>
    var snaps: map<Name, Node>
    var manifest: Doc<Manifest>
    var manifestSig: Doc<Signature>
    var store: Doc<set<Signature>>
    ghost var history: seq<Signature>

    constructor (key: string, current: map<Name, Node>, snaps: map<Name, Node>, manifest: Doc<Manifest>,
        manifestSig: Doc<Signature>, store: Doc<set<Signature>>)
      ensures trustRootKey == key && immutableFiles == IMMUTABLE_FILES
      ensures View() == World(Starting, None, Load(store), current, snaps, manifest, manifestSig, store, [])
    {
      trustRootKey, immutableFiles, state, expectedSelf := key, IMMUTABLE_FILES, Starting, None;
      this.consumed, this.current, this.snaps := Load(store), current, snaps;
      this.manifest, this.manifestSig, this.store, this.history := manifest, manifestSig, store, [];
    }

    ghost function View(): World
      reads this
    {
      World(state, expectedSelf, consumed, current, snaps, manifest, manifestSig, store, history)
    }

    method TryConsumeTokenAtomic(sig: Signature) returns (ok: bool)
      modifies this
      ensures (View(), ok) == TryConsume(old(View()), sig)
    {
      var currentSet := Load(store);
      if sig in currentSet { return false; }
      currentSet := currentSet + {sig};
      consumed := currentSet;
      store := Doc(currentSet);
      history := history + [sig];
      return true;
    }

    method CheckUnlockToken(tokens: seq<TokenFile>, now: real) returns (unlocked: bool)
      modifies this
      ensures (View(), unlocked) == CheckUnlock(trustRootKey, old(View()), tokens, now)
    {
      for i := 0 to |tokens|
        invariant View() == old(View())
        invariant CheckUnlock(trustRootKey, old(View()), tokens, now)
                  == CheckUnlock(trustRootKey, old(View()), tokens[i..], now)
      {
        var tf := tokens[i];
        assert tokens[i..][0] == tf && tokens[i..][1..] == tokens[i + 1..];
        if tf.LinkFile? || tf.Garbage? { continue; }
        if tf.data.action == "UNLOCK_EMERGENCY_LOCK" {
          if tf.signature.None? { continue; }
          if tf.data.expiresAt <= now { continue; }
          if !Verifies(trustRootKey, OfToken(tf.data), tf.signature.value) { continue; }
          var ok := TryConsumeTokenAtomic(tf.signature.value);
          if !ok { continue; }
          state := Starting;
          return true;
        }
      }
      return false;
    }

    method GetValidApprovalToken(tokens: seq<TokenFile>, f: Name, h: Option<Hash>, now: real) returns (found: bool)
      modifies this
      ensures (View(), found) == FindApproval(trustRootKey, old(View()), tokens, f, h, now)
    {
      for i := 0 to |tokens|
        invariant View() == old(View())
        invariant FindApproval(trustRootKey, old(View()), tokens, f, h, now)
                  == FindApproval(trustRootKey, old(View()), tokens[i..], f, h, now)
      {
        var tf := tokens[i];
        assert tokens[i..][0] == tf && tokens[i..][1..] == tokens[i + 1..];
        if tf.LinkFile? || tf.Garbage? { continue; }
        if tf.data.targetFile == "ALL" { continue; }
        if tf.data.targetFile == f {
          if tf.signature.None? || tf.signature.value in consumed { continue; }
          if tf.data.expiresAt <= now { continue; }
          if !Verifies(trustRootKey, OfToken(tf.data), tf.signature.value) { continue; }
          if !ClaimMatches(tf.data.approved, h) { continue; }
          var ok := TryConsumeTokenAtomic(tf.signature.value);
          if !ok { continue; }
          return true;
        }
      }
      return false;
    }

    method VerifyStoredManifest() returns (ok: bool)
      modifies this
      ensures (View(), ok) == VerifyManifest(trustRootKey, old(View()))
    {
      if manifest.Absent? || manifestSig.Absent? {
        state := Uninitialized;
        return false;
      }
      if manifest.Malformed? || manifestSig.Malformed?
        || !Verifies(trustRootKey, OfManifest(manifest.value), manifestSig.value) {
        state := EmergencyLock;
        return false;
      }
      var m := manifest.value;
      if m.guardianHash.None? {
        state := EmergencyLock;
        return false;
      }
      expectedSelf := m.guardianHash;
      var todo := m.files.Keys;
      while todo != {}
        invariant todo <= m.files.Keys
        invariant View() == old(View()).(expectedSelf := m.guardianHash)
        invariant forall f :: f in m.files && f !in todo ==> HashOf(At(snaps, f)) == Ok(Some(m.files[f]))
      {
        var f :| f in todo;
        if HashOf(At(snaps, f)) != Ok(Some(m.files[f])) {
          state := EmergencyLock;
          return false;
        }
        todo := todo - {f};
      }
      return true;
    }

    method VerifyGuardianSelfIntegrity(script: Node) returns (ok: bool)
      modifies this
      ensures (View(), ok) == VerifySelf(old(View()), script)
    {
      if expectedSelf.None? || HashOf(script) != Ok(expectedSelf) {
        state := EmergencyLock;
        return false;
      }
      return true;
    }

    /** The hashes of the snapshots that exist, unless one cannot be read. */
    method HashSnapshots() returns (filesMap: Option<map<Name, Hash>>)
      ensures filesMap == if Hashable(immutableFiles, snaps) then Some(FilesMap(immutableFiles, snaps)) else None
    {
      var found: map<Name, Hash> := map[];
      for i := 0 to |immutableFiles|
        invariant Hashable(immutableFiles[..i], snaps)
        invariant found == FilesMap(immutableFiles[..i], snaps)
      {
        var name := immutableFiles[i];
        assert immutableFiles[..i + 1] == immutableFiles[..i] + [name];
        match HashOf(At(snaps, name)) {
          case Err(_) =>
            assert name in immutableFiles;
            return None;
          case Ok(h) =>
            if h.Some? { found := found[name := h.value]; }
        }
      }
      assert immutableFiles[..|immutableFiles|] == immutableFiles;
      return Some(found);
    }

    method UpdateSnapshotAndManifest(f: Name, h: Option<Hash>, now: real) returns (error: Option<CopyError>)
      modifies this
      ensures (View(), error) == UpdateSnapshot(trustRootKey, immutableFiles, old(View()), f, h, now)
    {
      match SafeCopy(At(current, f), At(snaps, f), h)
      case Err(e) => return Some(e);
      case Ok(n) =>
        snaps := snaps[f := n];
        var filesMap := HashSnapshots();
        if filesMap.None? { return Some(PermissionError); }
        var m := Manifest(now.Floor, filesMap.value, expectedSelf);
        manifest, manifestSig := Doc(m), Doc(Hmac(trustRootKey, OfManifest(m)));
        return None;
    }

    method RollbackFile(f: Name) returns (error: Option<CopyError>)
      modifies this
      ensures (View(), error) == Rollback(old(View()), f)
    {
      match HashOf(At(snaps, f))
      case Err(e) => return Some(e);
      case Ok(h) =>
        match SafeCopy(At(snaps, f), At(current, f), h) {
          case Err(e) => return Some(e);
          case Ok(n) =>
            current := current[f := n];
            return None;
        }
    }

    method EnforceContent(f: Name, input: Input) returns (raised: bool)
      modifies this
      ensures (View(), raised) == CheckContent(trustRootKey, immutableFiles, old(View()), f, input)
    {
      if !Exists(At(snaps, f)) { return false; }
      var srcHash, snapHash := HashOf(At(current, f)), HashOf(At(snaps, f));
      if srcHash.Err? || snapHash.Err? {
        state := EmergencyLock;
        return false;
      }
      if srcHash != snapHash {
        var approved := GetValidApprovalToken(input.approvals, f, srcHash.value, input.now);
        var error: Option<CopyError>;
        if approved {
          error := UpdateSnapshotAndManifest(f, srcHash.value, input.now);
        } else {
          error := RollbackFile(f);
        }
        return error.Some?;
      }
      return false;
    }

    method CheckAndEnforceFile(f: Name, input: Input) returns (raised: bool)
      modifies this
      ensures (View(), raised) == CheckFile(trustRootKey, immutableFiles, old(View()), f, input)
    {
      match At(current, f)
      case Symlink(_) =>
        if !Exists(At(snaps, f)) {
          state := EmergencyLock;
          return false;
        }
        var error := RollbackFile(f);
        if error.Some? && error.value != ValueError { state := EmergencyLock; }
        return error == Some(ValueError);
      case Missing =>
        if !Exists(At(snaps, f)) {
          state := EmergencyLock;
          return false;
        }
        var error := RollbackFile(f);
        return error.Some?;
      case Inaccessible =>
        state := EmergencyLock;
        return false;
      case Faulty =>
        state := EmergencyLock;
        return false;
      case _ =>
        raised := EnforceContent(f, input);
    }

    method EnforceFiles(input: Input) returns (hasError: bool)
      modifies this
      ensures (View(), hasError) == CheckFiles(trustRootKey, immutableFiles, old(View()), immutableFiles, input)
    {
      hasError := false;
      for i := 0 to |immutableFiles|
        invariant var (w, raised) := CheckFiles(trustRootKey, immutableFiles, View(), immutableFiles[i..], input);
                  (w, hasError || raised)
                    == CheckFiles(trustRootKey, immutableFiles, old(View()), immutableFiles, input)
      {
        assert immutableFiles[i..][0] == immutableFiles[i] && immutableFiles[i..][1..] == immutableFiles[i + 1..];
        var raised := CheckAndEnforceFile(immutableFiles[i], input);
        if raised { hasError := true; }
      }
    }

    method CheckAndEnforceAll(input: Input) returns (returned: bool, hasError: bool)
      modifies this
      ensures (View(), returned, hasError) == EnforceAll(trustRootKey, immutableFiles, old(View()), input)
    {
      hasError := false;
      if state == EmergencyLock {
        var unlocked := CheckUnlockToken(input.unlocks, input.now);
        if !unlocked { return false, false; }
      }
      var trusted := VerifyStoredManifest();
      if !trusted { return false, false; }
      var intact := VerifyGuardianSelfIntegrity(input.script);
      if !intact { return false, false; }
      hasError := EnforceFiles(input);
      if !hasError && state != EmergencyLock && state != Uninitialized { state := Trusted; }
      return true, hasError;
    }
  }
}
