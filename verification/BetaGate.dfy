/** One-time beta codes over Redis (backend/src/betaGate/service.ts:49-82, 200-323 and
    368-469). Every Redis command is one atomic step; a request reads its challenge,
    deletes it and runs the redemption script in three separate steps. */
module BetaGate {
  import opened Orders

  datatype CodeEntry = CodeEntry(redeemed: bool, wallet: string, redeemedAt: nat, expiresAt: Option<nat>)

  datatype Challenge = Challenge(code: string, expiresAt: nat)

  datatype Grant = Grant(code: string, grantedAt: nat, expiresAt: nat)

  /** The keys under beta:code:, beta:challenge: and beta:access:. Times are in seconds. */
  datatype Store = Store(codes: map<string, CodeEntry>, challenges: map<string, Challenge>, access: map<string, Grant>)

  const CHALLENGE_TTL := 300
  const ACCESS_GRANT_TTL := 2592000

  function LowerChar(c: char): char {
    if 'A' <= c <= 'Z' then (c as int + 32) as char else c
  }

  function Lower(s: string): string {
    seq(|s|, i requires 0 <= i < |s| => LowerChar(s[i]))
  }

  /** Lowering replaces each capital by its small letter, and lowering again changes nothing. */
  lemma LowerHasNoCapitals(s: string)
    ensures |Lower(s)| == |s| && Lower(Lower(s)) == Lower(s)
    ensures forall i :: 0 <= i < |s| ==>
              && !('A' <= Lower(s)[i] <= 'Z') && (!('A' <= s[i] <= 'Z') ==> Lower(s)[i] == s[i])
              && ('A' <= s[i] <= 'Z' ==> Lower(s)[i] - 'a' == s[i] - 'A')
  {
    assert forall i :: 0 <= i < |s| ==> Lower(Lower(s))[i] == Lower(s)[i];
  }

  predicate IsLive(expiresAt: Option<nat>, now: nat) {
    expiresAt.None? || now < expiresAt.value
  }

  predicate HasCode(st: Store, code: string, now: nat) {
    code in st.codes && IsLive(st.codes[code].expiresAt, now)
  }

  predicate HasChallenge(st: Store, nonce: string, now: nat) {
    nonce in st.challenges && now < st.challenges[nonce].expiresAt
  }

  datatype Outcome = Redeemed | AlreadyRedeemed | InvalidCode | InvalidChallenge | InvalidSignature

  /** REDEEM_LUA_SCRIPT: an expired code is gone; storing a redeemed code drops its TTL. */
  function RedeemScript(st: Store, now: nat, code: string, wallet: string): (Store, Outcome) {
    if !HasCode(st, code, now) then (st, InvalidCode)
    else if st.codes[code].redeemed then (st, AlreadyRedeemed)
    else (st.(codes := st.codes[code := CodeEntry(true, wallet, now, None)],
              access := st.access[wallet := Grant(code, now, now + ACCESS_GRANT_TTL)]),
          Redeemed)
  }

  function Issue(st: Store, now: nat, nonce: string, code: string): Store {
    st.(challenges := st.challenges[nonce := Challenge(code, now + CHALLENGE_TTL)])
  }

  function Forget(st: Store, nonce: string): Store {
    st.(challenges := st.challenges - {nonce})
  }

  /** expiresInSeconds is optional, and zero means none. */
  function Seed(st: Store, now: nat, code: string, ttl: nat): Store {
    st.(codes := st.codes[code := CodeEntry(false, "", 0, if ttl == 0 then None else Some(now + ttl))])
  }

  class BetaGateService {
    var codes: map<string, CodeEntry>
    var challenges: map<string, Challenge>
    var access: map<string, Grant>

    ghost function Contents(): Store
      reads this
    {
      Store(codes, challenges, access)
    }

    constructor ()
      ensures Contents() == Store(map[], map[], map[])
    {
      codes, challenges, access := map[], map[], map[];
    }

    method CreateChallenge(code: string, nonce: string, now: nat)
      modifies this
      ensures Contents() == Issue(old(Contents()), now, nonce, code)
      ensures challenges == old(challenges)[nonce := Challenge(code, now + 300)]
      ensures codes == old(codes) && access == old(access)
    {
      challenges := challenges[nonce := Challenge(code, now + CHALLENGE_TTL)];
    }

    method EvalRedeemScript(code: string, wallet: string, now: nat) returns (r: Outcome)
      modifies this
      ensures (Contents(), r) == RedeemScript(old(Contents()), now, code, wallet)
      ensures challenges == old(challenges) && forall c :: c in codes && c != code ==>
              c in old(codes) && codes[c] == old(codes)[c]
      ensures r.InvalidCode? <==>
              code !in old(codes) || (old(codes)[code].expiresAt.Some? && old(codes)[code].expiresAt.value <= now)
      ensures r.AlreadyRedeemed? <==> HasCode(old(Contents()), code, now) && old(codes)[code].redeemed
      ensures r.Redeemed? <==> HasCode(old(Contents()), code, now) && !old(codes)[code].redeemed
      ensures r.Redeemed? ==>
              && codes == old(codes)[code := CodeEntry(true, wallet, now, None)]
              && access == old(access)[wallet := Grant(code, now, now + 2592000)]
      ensures !r.Redeemed? ==> Contents() == old(Contents())
    {
      if code !in codes || !IsLive(codes[code].expiresAt, now) {
        return InvalidCode;
      }
      var entry := codes[code];
      if entry.redeemed {
        return AlreadyRedeemed;
      }
      entry := entry.(redeemed := true, wallet := wallet, redeemedAt := now);
      codes := codes[code := entry.(expiresAt := None)];
      access := access[wallet := Grant(code, now, now + ACCESS_GRANT_TTL)];
      return Redeemed;
    }

    /** One undisturbed redemption. A wrong signature leaves everything as it was; any other
        answer to a live challenge consumes it. */
    method RedeemCode(nonce: string, signatureValid: bool, wallet: string, now: nat) returns (r: Outcome)
      modifies this
      ensures if !HasChallenge(old(Contents()), nonce, now) then r == InvalidChallenge && Contents() == old(Contents())
              else if !signatureValid then r == InvalidSignature && Contents() == old(Contents())
              else
                var st, code := Forget(old(Contents()), nonce), old(challenges)[nonce].code;
                (Contents(), r) == RedeemScript(st, now, code, Lower(wallet))
      ensures r.InvalidChallenge? <==> nonce !in old(challenges) || old(challenges)[nonce].expiresAt <= now
      ensures challenges ==
              if r.InvalidChallenge? || r.InvalidSignature? then old(challenges) else old(challenges) - {nonce}
      ensures r.Redeemed? ==>
              var code := old(challenges)[nonce].code;
              && codes == old(codes)[code := CodeEntry(true, Lower(wallet), now, None)]
              && access == old(access)[Lower(wallet) := Grant(code, now, now + 2592000)]
      ensures !r.Redeemed? ==> codes == old(codes) && access == old(access)
    {
      if nonce !in challenges || now >= challenges[nonce].expiresAt {
        return InvalidChallenge;
      }
      var challenge := challenges[nonce];
      if !signatureValid {
        return InvalidSignature;
      }
      challenges := challenges - {nonce};
      r := EvalRedeemScript(challenge.code, Lower(wallet), now);
    }

    method SeedCode(code: string, ttl: nat, now: nat) returns (added: bool)
      modifies this
      ensures added <==> !HasCode(old(Contents()), code, now)
      ensures Contents() == if added then Seed(old(Contents()), now, code, ttl) else old(Contents())
      ensures added ==> code in codes && !codes[code].redeemed && challenges == old(challenges) && access == old(access)
      ensures added && ttl == 0 ==> codes == old(codes)[code := CodeEntry(false, "", 0, None)]
      ensures added && ttl > 0 ==> codes == old(codes)[code := CodeEntry(false, "", 0, Some(now + ttl))]
    {
      if code in codes && IsLive(codes[code].expiresAt, now) {
        return false;
      }
      codes := codes[code := CodeEntry(false, "", 0, if ttl == 0 then None else Some(now + ttl))];
      return true;
    }

    method CheckAccess(wallet: string, now: nat) returns (granted: Option<Grant>)
      ensures granted == if Lower(wallet) in access && now < access[Lower(wallet)].expiresAt
              then Some(access[Lower(wallet)]) else None
    {
      var key := Lower(wallet);
      if key !in access || now >= access[key].expiresAt {
        return None;
      }
      return Some(access[key]);
    }
  }

  // ---------------------------------------------------------------- interleaved requests

  datatype Phase = Reading | Deleting(code: string) | Redeeming(code: string) | Answered

  datatype Request = Request(nonce: string, wallet: string, phase: Phase)

  datatype Redemption = Redemption(code: string, wallet: string, nonce: string)

  /** `issued` remembers the code of every nonce ever handed out, `absent` the code that
      each seeding call has found missing and is about to write. */
  datatype System = System(
    store: Store,
    now: nat,
    requests: seq<Request>,
    issued: map<string, string>,
    absent: map<nat, string>,
    redemptions: seq<Redemption>
  )

  const INITIAL := System(Store(map[], map[], map[]), 0, [], map[], map[], [])

  datatype Event =
    | Tick(seconds: nat)
    | IssueChallenge(nonce: string, code: string)
    | Begin(nonce: string, wallet: string)
    | ReadChallenge(id: nat, signatureValid: bool)
    | DeleteChallenge(id: nat)
    | Redeem(id: nat)
    | SeedLookup(seeder: nat, code: string)
    | SeedWrite(seeder: nat, ttl: nat)

  predicate InPhase(s: System, id: nat, deleting: bool) {
    id < |s.requests| && if deleting then s.requests[id].phase.Deleting? else s.requests[id].phase.Redeeming?
  }

  function Step(s: System, e: Event): System {
    match e
    case Tick(seconds) => s.(now := s.now + seconds)
    case IssueChallenge(nonce, code) =>
      if nonce in s.issued then s
      else s.(store := Issue(s.store, s.now, nonce, code), issued := s.issued[nonce := code])
    case Begin(nonce, wallet) => s.(requests := s.requests + [Request(nonce, wallet, Reading)])
    case ReadChallenge(id, signatureValid) =>
      if id >= |s.requests| || !s.requests[id].phase.Reading? then s
      else
        var r := s.requests[id];
        var phase := if HasChallenge(s.store, r.nonce, s.now) && signatureValid
          then Deleting(s.store.challenges[r.nonce].code) else Answered;
        s.(requests := s.requests[id := r.(phase := phase)])
    case DeleteChallenge(id) =>
      if !InPhase(s, id, true) then s
      else
        var r := s.requests[id];
        s.(store := Forget(s.store, r.nonce), requests := s.requests[id := r.(phase := Redeeming(r.phase.code))])
    case Redeem(id) =>
      if !InPhase(s, id, false) then s
      else
        var r := s.requests[id];
        var (store, outcome) := RedeemScript(s.store, s.now, r.phase.code, Lower(r.wallet));
        s.(store := store,
           requests := s.requests[id := r.(phase := Answered)],
           redemptions := s.redemptions + if outcome.Redeemed?
             then [Redemption(r.phase.code, Lower(r.wallet), r.nonce)] else [])
    case SeedLookup(seeder, code) =>
      s.(absent := if HasCode(s.store, code, s.now) then s.absent - {seeder} else s.absent[seeder := code])
    case SeedWrite(seeder, ttl) =>
      if seeder !in s.absent then s
      else s.(store := Seed(s.store, s.now, s.absent[seeder], ttl), absent := s.absent - {seeder})
  }

  function Run(events: seq<Event>): System {
    if events == [] then INITIAL else Step(Run(events[..|events| - 1]), events[|events| - 1])
  }

  // ------------------------------------------------------------------------ the invariant

  ghost predicate Mentions(redemptions: seq<Redemption>, code: string) {
    exists i :: 0 <= i < |redemptions| && redemptions[i].code == code
  }

  ghost predicate Earned(redemptions: seq<Redemption>, wallet: string, code: string) {
    exists i :: 0 <= i < |redemptions| && redemptions[i].wallet == wallet && redemptions[i].code == code
  }

  ghost predicate CodesOk(s: System) {
    && (forall i, j :: 0 <= i < j < |s.redemptions| ==> s.redemptions[i].code != s.redemptions[j].code)
    && (forall i :: 0 <= i < |s.redemptions| ==>
          var r := s.redemptions[i];
          r.code in s.store.codes && s.store.codes[r.code].redeemed && s.store.codes[r.code].expiresAt == None
          && s.store.codes[r.code].wallet == r.wallet)
    && (forall c :: c in s.store.codes && s.store.codes[c].redeemed ==> Mentions(s.redemptions, c))
  }

  ghost predicate NoncesOk(s: System) {
    && (forall n :: n in s.store.challenges ==> n in s.issued && s.issued[n] == s.store.challenges[n].code)
    && (forall i :: 0 <= i < |s.requests| ==>
          var r := s.requests[i];
          && (r.phase.Deleting? ==> r.nonce in s.issued && s.issued[r.nonce] == r.phase.code)
          && (r.phase.Redeeming? ==> r.nonce in s.issued && s.issued[r.nonce] == r.phase.code))
    && (forall i :: 0 <= i < |s.redemptions| ==>
          s.redemptions[i].nonce in s.issued && s.issued[s.redemptions[i].nonce] == s.redemptions[i].code)
  }

  ghost predicate GrantsOk(s: System) {
    forall w :: w in s.store.access ==> Earned(s.redemptions, w, s.store.access[w].code)
  }

  ghost predicate Inv(s: System) {
    CodesOk(s) && NoncesOk(s) && GrantsOk(s)
  }

  /** A seeding call writes over a code that was redeemed since it found it missing. */
  predicate Reseeds(s: System, e: Event) {
    e.SeedWrite? && e.seeder in s.absent && s.absent[e.seeder] in s.store.codes
      && s.store.codes[s.absent[e.seeder]].redeemed
  }

  /** Every step keeps the invariant, except exactly a seeding call that re-seeds: its
      lookup and its write are two commands, and nothing holds the key in between. */
  lemma StepKeepsInvExactly(s: System, e: Event)
    requires Inv(s)
    ensures Inv(Step(s, e)) <==> !Reseeds(s, e)
  {
    var s' := Step(s, e);
    if Reseeds(s, e) {
      var code := s.absent[e.seeder];
      var i :| 0 <= i < |s.redemptions| && s.redemptions[i].code == code;
      assert s'.redemptions[i].code == code && !s'.store.codes[code].redeemed;
    } else if e.Redeem? {
      RedeemKeepsInv(s, e);
    } else {
      OtherStepsKeepCodes(s, e);
      OtherStepsKeepNonces(s, e);
    }
  }

  lemma OtherStepsKeepCodes(s: System, e: Event)
    requires CodesOk(s) && GrantsOk(s) && !e.Redeem? && !Reseeds(s, e)
    ensures CodesOk(Step(s, e)) && GrantsOk(Step(s, e))
  {
    if e.SeedWrite? {
      forall c | c in Step(s, e).store.codes && Step(s, e).store.codes[c].redeemed
        ensures Mentions(s.redemptions, c)
      {
        assert s.store.codes[c].redeemed;
      }
    } else {
      assert Step(s, e).store.codes == s.store.codes;
    }
  }

  lemma OtherStepsKeepNonces(s: System, e: Event)
    requires NoncesOk(s) && !e.Redeem?
    ensures NoncesOk(Step(s, e))
  {
  }

  lemma AddedIsMentioned(rs: seq<Redemption>, r: Redemption)
    ensures Mentions(rs + [r], r.code) && Earned(rs + [r], r.wallet, r.code)
    ensures forall c :: Mentions(rs, c) ==> Mentions(rs + [r], c)
    ensures forall w, c :: Earned(rs, w, c) ==> Earned(rs + [r], w, c)
  {
    var all := rs + [r];
    assert all[|rs|] == r;
    assert forall i :: 0 <= i < |rs| ==> all[i] == rs[i];
  }

  /** The script's success, field by field. */
  lemma RedeemedStep(s: System, e: Event)
    requires e.Redeem? && InPhase(s, e.id, false)
    requires var c := s.requests[e.id].phase.code; HasCode(s.store, c, s.now) && !s.store.codes[c].redeemed
    ensures var r, s' := s.requests[e.id], Step(s, e);
            var wallet := Lower(r.wallet);
            && s'.redemptions == s.redemptions + [Redemption(r.phase.code, wallet, r.nonce)]
            && s'.store.codes == s.store.codes[r.phase.code := CodeEntry(true, wallet, s.now, None)]
            && s'.store.access == s.store.access[wallet := Grant(r.phase.code, s.now, s.now + ACCESS_GRANT_TTL)]
            && s'.store.challenges == s.store.challenges && s'.issued == s.issued
            && s'.requests == s.requests[e.id := r.(phase := Answered)]
  {
  }

  lemma RedeemKeepsInv(s: System, e: Event)
    requires Inv(s) && e.Redeem?
    ensures Inv(Step(s, e))
  {
    if InPhase(s, e.id, false) {
      var code := s.requests[e.id].phase.code;
      if HasCode(s.store, code, s.now) && !s.store.codes[code].redeemed {
        RedeemedStep(s, e);
        SuccessKeepsInv(s, Step(s, e), e.id);
      } else {
        assert Step(s, e).redemptions == s.redemptions;
      }
    }
  }

  lemma SuccessKeepsInv(s: System, s': System, id: nat)
    requires Inv(s) && InPhase(s, id, false)
    requires var r := s.requests[id];
             var wallet := Lower(r.wallet);
             && (r.phase.code in s.store.codes ==> !s.store.codes[r.phase.code].redeemed)
             && s'.redemptions == s.redemptions + [Redemption(r.phase.code, wallet, r.nonce)]
             && s'.store.codes == s.store.codes[r.phase.code := CodeEntry(true, wallet, s.now, None)]
             && s'.store.access == s.store.access[wallet := Grant(r.phase.code, s.now, s.now + ACCESS_GRANT_TTL)]
             && s'.store.challenges == s.store.challenges && s'.issued == s.issued
             && s'.requests == s.requests[id := r.(phase := Answered)]
    ensures Inv(s')
  {
    var r := s.requests[id];
    AddedIsMentioned(s.redemptions, Redemption(r.phase.code, Lower(r.wallet), r.nonce));
    assert CodesOk(s');
    assert NoncesOk(s');
    assert GrantsOk(s');
  }

  /** Seeding is never interrupted by a redemption of the same code. */
  ghost predicate SeedsUndisturbed(events: seq<Event>) {
    forall k :: 0 <= k < |events| ==> !Reseeds(Run(events[..k]), events[k])
  }

  /** The gate theorem: with undisturbed seeding the invariant holds in every interleaving
      of challenges, requests, expiries and seedings. */
  lemma {:induction false} RunsKeepInv(events: seq<Event>)
    requires SeedsUndisturbed(events)
    ensures Inv(Run(events))
  {
    if events != [] {
      var n := |events| - 1;
      PrefixUndisturbed(events, n);
      RunsKeepInv(events[..n]);
      StepKeepsInvExactly(Run(events[..n]), events[n]);
    }
  }

  // ------------------------------------------------------------------- atomic seeding

  /** Every write of a seeding call directly follows its own lookup. */
  predicate SeedingAtomic(events: seq<Event>) {
    forall k :: 0 <= k < |events| && events[k].SeedWrite? ==>
      k > 0 && events[k - 1].SeedLookup? && events[k - 1].seeder == events[k].seeder
  }

  /** A write that directly follows its lookup hits no redeemed code: a redeemed code has no
      expiry, so the lookup finds it. */
  lemma AdjacentWriteIsHarmless(s: System, seeder: nat, code: string, ttl: nat)
    requires CodesOk(s)
    ensures !Reseeds(Step(s, SeedLookup(seeder, code)), SeedWrite(seeder, ttl))
  {
    if code in s.store.codes && s.store.codes[code].redeemed {
      assert Mentions(s.redemptions, code);
    }
  }

  /** Taking the two commands of a seeding call as one is enough: nothing redeemed is ever
      overwritten. */
  lemma {:induction false} AtomicSeedingIsUndisturbed(events: seq<Event>)
    requires SeedingAtomic(events)
    ensures SeedsUndisturbed(events)
  {
    forall k | 0 <= k < |events|
      ensures !Reseeds(Run(events[..k]), events[k])
    {
      if events[k].SeedWrite? {
        AtomicSeedingIsUndisturbed(events[..k - 1]);
        RunsKeepInv(events[..k - 1]);
        assert events[..k][..k - 1] == events[..k - 1];
        AdjacentWriteIsHarmless(Run(events[..k - 1]), events[k].seeder, events[k - 1].code, events[k].ttl);
      }
    }
  }

  // ------------------------------------------------------------------ what the gate promises

  /** Each code is redeemed at most once, and each nonce yields at most one success even
      when several requests read its challenge before one of them deletes it. */
  lemma RedeemedAtMostOnce(events: seq<Event>, i: nat, j: nat)
    requires SeedsUndisturbed(events) || SeedingAtomic(events)
    requires i < |Run(events).redemptions| && j < |Run(events).redemptions|
    requires var a, b := Run(events).redemptions[i], Run(events).redemptions[j]; a.code == b.code || a.nonce == b.nonce
    ensures i == j
  {
    ScheduledRunsKeepInv(events);
  }

  lemma ScheduledRunsKeepInv(events: seq<Event>)
    requires SeedsUndisturbed(events) || SeedingAtomic(events)
    ensures SeedsUndisturbed(events) && Inv(Run(events))
  {
    if SeedingAtomic(events) {
      AtomicSeedingIsUndisturbed(events);
    }
    RunsKeepInv(events);
  }

  predicate RedeemedBy(s: System, code: string, wallet: string) {
    HasCode(s.store, code, s.now) && s.store.codes[code].redeemed && s.store.codes[code].wallet == wallet
  }

  lemma RedeemedStays(s: System, e: Event, code: string, wallet: string)
    requires Inv(s) && !Reseeds(s, e) && RedeemedBy(s, code, wallet)
    ensures RedeemedBy(Step(s, e), code, wallet)
  {
  }

  lemma PrefixUndisturbed(events: seq<Event>, n: nat)
    requires SeedsUndisturbed(events) && n <= |events|
    ensures SeedsUndisturbed(events[..n])
  {
    forall k | 0 <= k < n
      ensures !Reseeds(Run(events[..n][..k]), events[..n][k])
    {
      assert events[..n][..k] == events[..k];
    }
  }

  lemma LastUndisturbed(events: seq<Event>, e: Event)
    requires SeedsUndisturbed(events + [e])
    ensures SeedsUndisturbed(events) && !Reseeds(Run(events), e) && Run(events + [e]) == Step(Run(events), e)
  {
    var all := events + [e];
    PrefixUndisturbed(all, |events|);
    assert all[..|events|] == events;
    assert !Reseeds(Run(all[..|events|]), all[|events|]);
  }

  lemma {:induction false} UndisturbedForGood(events: seq<Event>, more: seq<Event>, code: string, wallet: string)
    requires SeedsUndisturbed(events + more) && RedeemedBy(Run(events), code, wallet)
    ensures RedeemedBy(Run(events + more), code, wallet)
  {
    if more == [] {
      assert events + more == events;
    } else {
      var n := |more| - 1;
      ConcatInit(events, more);
      assert events + more == events + more[..n] + [more[n]];
      LastUndisturbed(events + more[..n], more[n]);
      UndisturbedForGood(events, more[..n], code, wallet);
      RunsKeepInv(events + more[..n]);
      RedeemedStays(Run(events + more[..n]), more[n], code, wallet);
    }
  }

  /** Once redeemed, a code stays redeemed by the same wallet through every continuation and
      never expires, even if it was seeded with an expiry. */
  lemma RedeemedForGood(events: seq<Event>, more: seq<Event>, code: string)
    requires SeedsUndisturbed(events + more) || SeedingAtomic(events + more)
    requires code in Run(events).store.codes && Run(events).store.codes[code].redeemed
    ensures RedeemedBy(Run(events + more), code, Run(events).store.codes[code].wallet)
  {
    ScheduledRunsKeepInv(events + more);
    PrefixUndisturbed(events + more, |events|);
    assert (events + more)[..|events|] == events;
    RunsKeepInv(events);
    assert Mentions(Run(events).redemptions, code);
    UndisturbedForGood(events, more, code, Run(events).store.codes[code].wallet);
  }

  /** Every access grant names a code that was redeemed by its wallet. */
  lemma GrantsAreEarned(events: seq<Event>, wallet: string)
    requires SeedsUndisturbed(events) || SeedingAtomic(events)
    requires wallet in Run(events).store.access
    ensures var st := Run(events).store;
            var code := st.access[wallet].code;
            code in st.codes && st.codes[code].redeemed && st.codes[code].wallet == wallet
  {
    ScheduledRunsKeepInv(events);
    assert Earned(Run(events).redemptions, wallet, Run(events).store.access[wallet].code);
  }

  // ------------------------------------------------------------ challenges are used once

  /** A request goes on from its read exactly if the nonce has a challenge, in its time, and
      the signature is good; it goes on with the challenge's code. */
  lemma ReadPassesExactly(s: System, id: nat, signatureValid: bool)
    requires id < |s.requests| && s.requests[id].phase.Reading?
    ensures var nonce, phase := s.requests[id].nonce, Step(s, ReadChallenge(id, signatureValid)).requests[id].phase;
            var open := nonce in s.store.challenges && s.now < s.store.challenges[nonce].expiresAt && signatureValid;
            phase == if open then Deleting(s.store.challenges[nonce].code) else Answered
  {
  }

  /** Every challenge at hand, and every one that a request has read, was issued. */
  ghost predicate NoncesKnown(s: System) {
    && (forall n :: n in s.store.challenges ==> n in s.issued)
    && (forall i :: 0 <= i < |s.requests| && s.requests[i].phase.Deleting? ==> s.requests[i].nonce in s.issued)
  }

  lemma StepKeepsNoncesKnown(s: System, e: Event)
    requires NoncesKnown(s)
    ensures NoncesKnown(Step(s, e))
  {
  }

  lemma {:induction false} RunsKeepNoncesKnown(events: seq<Event>)
    ensures NoncesKnown(Run(events))
  {
    if events != [] {
      RunsKeepNoncesKnown(events[..|events| - 1]);
      StepKeepsNoncesKnown(Run(events[..|events| - 1]), events[|events| - 1]);
    }
  }

  predicate Consumed(s: System, nonce: string) {
    nonce in s.issued && nonce !in s.store.challenges
  }

  lemma StepKeepsConsumed(s: System, e: Event, nonce: string)
    requires Consumed(s, nonce)
    ensures Consumed(Step(s, e), nonce)
  {
  }

  lemma {:induction false} RunsKeepConsumed(events: seq<Event>, more: seq<Event>, nonce: string)
    requires Consumed(Run(events), nonce)
    ensures Consumed(Run(events + more), nonce)
  {
    if more == [] {
      assert events + more == events;
    } else {
      RunsKeepConsumed(events, more[..|more| - 1], nonce);
      ConcatInit(events, more);
      StepKeepsConsumed(Run(events + more[..|more| - 1]), more[|more| - 1], nonce);
    }
  }

  /** Once a request has deleted its challenge, no later request gets past its read with the
      same nonce, whatever happens in between and however good its signature. */
  lemma ChallengeIsUsedOnce(events: seq<Event>, id: nat, more: seq<Event>, other: nat, signatureValid: bool)
    requires InPhase(Run(events), id, true)
    requires var s := Run(events + [DeleteChallenge(id)] + more);
             && other < |s.requests| && s.requests[other].phase.Reading?
             && s.requests[other].nonce == Run(events).requests[id].nonce
    ensures var s := Run(events + [DeleteChallenge(id)] + more);
            Step(s, ReadChallenge(other, signatureValid)).requests[other].phase == Answered
  {
    var nonce := Run(events).requests[id].nonce;
    RunsKeepNoncesKnown(events);
    AppendInit(events, DeleteChallenge(id));
    assert Consumed(Run(events + [DeleteChallenge(id)]), nonce);
    RunsKeepConsumed(events + [DeleteChallenge(id)], more, nonce);
  }

  lemma Extend(events: seq<Event>, e: Event) returns (events': seq<Event>)
    ensures events' == events + [e] && Run(events') == Step(Run(events), e)
  {
    events' := events + [e];
    assert events'[..|events|] == events;
  }

  /** An undisturbed request for a live, unredeemed code succeeds. */
  lemma FullRedemption(events: seq<Event>, code: string, nonce: string, wallet: string) returns (es: seq<Event>)
    requires var s := Run(events);
             HasCode(s.store, code, s.now) && !s.store.codes[code].redeemed && nonce !in s.issued
    ensures var s, s' := Run(events), Run(es);
            && s'.redemptions == s.redemptions + [Redemption(code, Lower(wallet), nonce)]
            && code in s'.store.codes && s'.store.codes[code].redeemed
            && s'.absent == s.absent && s'.now == s.now && s'.issued == s.issued[nonce := code]
  {
    var id := |Run(events).requests|;
    es := Extend(events, IssueChallenge(nonce, code));
    es := Extend(es, Begin(nonce, wallet));
    assert HasChallenge(Run(es).store, nonce, Run(es).now);
    es := Extend(es, ReadChallenge(id, true));
    assert Run(es).requests[id] == Request(nonce, wallet, Deleting(code));
    es := Extend(es, DeleteChallenge(id));
    assert Run(es).requests[id] == Request(nonce, wallet, Redeeming(code));
    es := Extend(es, Redeem(id));
  }

  /** The disturbed case is reachable: two seeding calls look the same code up before
      either writes it, and the second write makes the redeemed code redeemable again. */
  lemma SeedingRaceRedeemsTwice()
    ensures exists events :: var rs := Run(events).redemptions; |rs| == 2 && rs[0].code == rs[1].code
  {
    var es := Extend([], SeedLookup(0, "BETA01"));
    es := Extend(es, SeedLookup(1, "BETA01"));
    es := Extend(es, SeedWrite(0, 0));
    assert Run(es).absent == map[1 := "BETA01"] && Run(es).redemptions == [] && Run(es).issued == map[];
    es := FullRedemption(es, "BETA01", "n1", "alice");
    es := Extend(es, SeedWrite(1, 0));
    es := FullRedemption(es, "BETA01", "n2", "bob");
    assert |Run(es).redemptions| == 2;
  }
}
