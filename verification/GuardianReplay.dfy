/** Replayed tokens: when the guardian accepts a token that was consumed before, and what the persistent list of
    consumed tokens and the list in memory have to do with it. */
module GuardianReplay {
  import opened Wrappers
  import opened Guardian

  /** The checks on an approval token other than those against replay. */
  predicate GenuineApproval(key: string, t: TokenFile, f: Name, h: Option<Hash>, now: real) {
    && t.TokenFile? && t.data.targetFile != "ALL" && t.data.targetFile == f && t.signature.Some?
    && t.data.expiresAt > now && Verifies(key, OfToken(t.data), t.signature.value) && ClaimMatches(t.data.approved, h)
  }

  /** An approval is found exactly if a genuine token is listed that neither the memory nor the persistent
      list holds. */
  lemma ApprovalAcceptedIff(key: string, w: World, tokens: seq<TokenFile>, f: Name, h: Option<Hash>, now: real)
    ensures FindApproval(key, w, tokens, f, h, now).1 <==>
            exists t :: t in tokens && GenuineApproval(key, t, f, h, now)
              && t.signature.value !in w.consumed && t.signature.value !in Load(w.store)
  {
    FindApprovalConsumes(key, w, tokens, f, h, now);
    forall t | t in tokens
      ensures ApprovalValid(key, w, t, f, h, now) <==>
              GenuineApproval(key, t, f, h, now) && t.signature.value !in w.consumed
    {
    }
  }

  /** The lock is opened exactly if a valid unlock token is listed that the persistent list does not hold. */
  lemma UnlockAcceptedIff(key: string, w: World, tokens: seq<TokenFile>, now: real)
    ensures CheckUnlock(key, w, tokens, now).1 <==>
            exists t :: t in tokens && UnlockValid(key, t, now) && t.signature.value !in Load(w.store)
  {
    CheckUnlockConsumes(key, w, tokens, now);
  }

  /** As long as it can be read, the persistent list holds every token consumed so far. */
  ghost predicate ListComplete(w: World) {
    w.store.Doc? ==> forall s :: s in w.history ==> s in w.store.value
  }

  /** If the list is complete whenever it can be read, a consumed approval is accepted again if and only if the list
      cannot be read and the approval has left the memory. */
  lemma ReplayedApprovalIff(key: string, w: World, tokens: seq<TokenFile>, f: Name, h: Option<Hash>, now: real)
    requires ListComplete(w) && forall t :: t in tokens && t.TokenFile? && t.signature.Some? ==>
             t.signature.value in w.history
    ensures FindApproval(key, w, tokens, f, h, now).1 <==>
            !w.store.Doc?
              && exists t :: t in tokens && GenuineApproval(key, t, f, h, now) && t.signature.value !in w.consumed
  {
    ApprovalAcceptedIff(key, w, tokens, f, h, now);
  }

  /** A consumed unlock token is accepted again if and only if the list cannot be read. */
  lemma ReplayedUnlockIff(key: string, w: World, tokens: seq<TokenFile>, now: real)
    requires ListComplete(w) && forall t :: t in tokens && t.TokenFile? && t.signature.Some? ==>
             t.signature.value in w.history
    ensures CheckUnlock(key, w, tokens, now).1 <==> !w.store.Doc? && exists t :: t in tokens && UnlockValid(key, t, now)
  {
    UnlockAcceptedIff(key, w, tokens, now);
  }

  /** While the list cannot be read, consuming any other token makes the memory forget: an approval that was refused
      before is then accepted. */
  lemma OtherTokenMakesForget(key: string, w: World, t: TokenFile, f: Name, h: Option<Hash>, other: Signature,
      now: real)
    requires GenuineApproval(key, t, f, h, now) && t.signature.value in w.consumed
    requires !w.store.Doc? && other != t.signature.value
    ensures !FindApproval(key, w, [t], f, h, now).1
    ensures TryConsume(w, other).1 && FindApproval(key, TryConsume(w, other).0, [t], f, h, now).1
  {
    ApprovalAcceptedIff(key, w, [t], f, h, now);
    ApprovalAcceptedIff(key, TryConsume(w, other).0, [t], f, h, now);
    assert t in [t];
  }

  /* ---------- runs in which the list may be lost ---------- */

  /** Besides passes: the list is replaced by another document, or the guardian is started anew. */
  datatype Event = Passes(turn: Turn) | Replaces(store: Doc<set<Signature>>) | Restarts

  function After(key: string, files: seq<Name>, w: World, e: Event): World {
    match e
    case Passes(turn) => Pass(key, files, w, turn)
    case Replaces(store) => w.(store := store)
    case Restarts => w.(state := Starting, expectedSelf := None, consumed := Load(w.store))
  }

  function RunEvents(key: string, files: seq<Name>, w: World, es: seq<Event>): World
    decreases |es|
  {
    if es == [] then w else RunEvents(key, files, After(key, files, w, es[0]), es[1..])
  }

  /** No event of the run makes the list lose this signature. */
  predicate Kept(key: string, files: seq<Name>, w: World, es: seq<Event>, sig: Signature)
    decreases |es|
  {
    es == [] ||
    (&& (es[0].Replaces? && sig in Load(w.store) ==> sig in Load(es[0].store))
     && Kept(key, files, After(key, files, w, es[0]), es[1..], sig))
  }

  ghost predicate ConsumedOnce(w: World, sig: Signature) {
    && (sig in w.history ==> sig in Load(w.store))
    && forall i, j :: 0 <= i < j < |w.history| ==> w.history[i] != sig || w.history[j] != sig
  }

  lemma PassConsumesOnce(w: World, w1: World, sig: Signature)
    requires Consumed(w, w1) && ConsumedOnce(w, sig)
    ensures ConsumedOnce(w1, sig)
  {
    var n := |w.history|;
    forall i | 0 <= i < n ensures w1.history[i] == w.history[i] { }
    forall i | 0 <= i < |w1.history| && w1.history[i] == sig ensures sig in Load(w1.store) {
      if i < n { assert w.history[i] in w.history; }
    }
    forall i, j | 0 <= i < j < |w1.history| ensures w1.history[i] != sig || w1.history[j] != sig {
      if i < n <= j { assert w.history[i] in w.history; }
    }
  }

  /** In every run, restarts included, a token is consumed twice only if in between the list loses its signature. */
  lemma {:induction false} TwiceOnlyAfterLoss(key: string, files: seq<Name>, w: World, es: seq<Event>, sig: Signature)
    requires ConsumedOnce(w, sig) && Kept(key, files, w, es, sig)
    ensures ConsumedOnce(RunEvents(key, files, w, es), sig)
    decreases |es|
  {
    if es != [] {
      var w1 := After(key, files, w, es[0]);
      if es[0].Passes? {
        var turn := es[0].turn;
        PassRespectsTokens(key, files, w.(current := turn.current), turn.input);
        PassConsumesOnce(w, w1, sig);
      }
      TwiceOnlyAfterLoss(key, files, w1, es[1..], sig);
    }
  }

  /** A locked guardian whose manifest is damaged. */
  function Damaged(sig: Signature): World {
    World(EmergencyLock, None, {}, map[], map[], Malformed, Doc(sig), Doc({}), [])
  }

  function UnlockToken(key: string, expiresAt: real): TokenFile {
    var data := TokenData("UNLOCK_EMERGENCY_LOCK", "", expiresAt, NoHash, "n");
    TokenFile(data, Some(Hmac(key, OfToken(data))))
  }

  lemma LockedPass(key: string, w: World, turn: Turn, t: TokenFile)
    requires w.state == EmergencyLock && w.manifest.Malformed? && w.manifestSig.Doc? && turn.input.unlocks == [t]
    requires UnlockValid(key, t, turn.input.now) && t.signature.value !in Load(w.store)
    ensures var sig := t.signature.value;
            Pass(key, [], w, turn) == w.(current := turn.current, history := w.history + [sig],
                                         consumed := Load(w.store) + {sig}, store := Doc(Load(w.store) + {sig}))
  {
  }

  /** Two passes with one and the same unlock token, between which the list becomes unreadable: it is consumed twice. */
  lemma LostListAllowsReplay(key: string, turn: Turn)
    requires turn.input.unlocks == [UnlockToken(key, turn.input.now + 60.0)]
    ensures var sig := UnlockToken(key, turn.input.now + 60.0).signature.value;
            RunEvents(key, [], Damaged(sig), [Passes(turn), Replaces(Malformed), Passes(turn)]).history == [sig, sig]
  {
    var t := UnlockToken(key, turn.input.now + 60.0);
    var sig := t.signature.value;
    var w := Damaged(sig);
    LockedPass(key, w, turn, t);
    var w1 := Pass(key, [], w, turn);
    var w2 := w1.(store := Malformed);
    LockedPass(key, w2, turn, t);
    var w3 := Pass(key, [], w2, turn);
    var es := [Passes(turn), Replaces(Malformed), Passes(turn)];
    assert es[1..] == [Replaces(Malformed), Passes(turn)] && es[1..][1..] == [Passes(turn)]
      && [Passes(turn)][1..] == [];
    assert RunEvents(key, [], w3, []) == w3;
    assert RunEvents(key, [], w2, [Passes(turn)]) == w3;
    assert RunEvents(key, [], w1, es[1..]) == w3;
  }
}
