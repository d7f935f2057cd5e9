/** The points ledger and the one-time referral credit
    (backend/src/services/referralService.ts:80-118, 143-235, 282-416 and 511-552,
    backend/src/models/SpacePoints.ts:5-30, 76-83 and 116-132). */
module Referrals {
  import opened Orders

  datatype Level = Iron | Bronze | Silver | Gold | Platinum | Diamond

  const REFERRAL_BONUS := 10000
  const REFERRED_BONUS := 100
  const COMMENT := 100
  const COMMENT_DAILY_CAP := 3
  const DAILY_LOGIN_BONUS := 10

  function Threshold(l: Level): nat {
    match l
    case Iron => 0
    case Bronze => 50000
    case Silver => 120000
    case Gold => 250000
    case Platinum => 350000
    case Diamond => 500000
  }

  function CalculateLevel(points: nat): Level {
    if points >= Threshold(Diamond) then Diamond
    else if points >= Threshold(Platinum) then Platinum
    else if points >= Threshold(Gold) then Gold
    else if points >= Threshold(Silver) then Silver
    else if points >= Threshold(Bronze) then Bronze
    else Iron
  }

  /** The level is the highest one whose threshold has been reached. */
  lemma LevelIsHighestReached(points: nat, l: Level)
    ensures CalculateLevel(points) == l <==>
            Threshold(l) <= points && forall h :: Threshold(h) > Threshold(l) ==> points < Threshold(h)
  {
    assert Threshold(Bronze) > 0 && Threshold(Silver) > 0 && Threshold(Gold) > 0 && Threshold(Platinum) > 0
      && Threshold(Diamond) > 0;
  }

  /** The levels by points. */
  lemma LevelsByPoints(points: nat)
    ensures CalculateLevel(points) == Iron <==> points < 50000
    ensures CalculateLevel(points) == Bronze <==> 50000 <= points < 120000
    ensures CalculateLevel(points) == Silver <==> 120000 <= points < 250000
    ensures CalculateLevel(points) == Gold <==> 250000 <= points < 350000
    ensures CalculateLevel(points) == Platinum <==> 350000 <= points < 500000
    ensures CalculateLevel(points) == Diamond <==> 500000 <= points
  {
  }

  datatype User = User(
    total: nat,
    referral: nat,
    trading: nat,
    bonus: nat,
    level: Level,
    referredBy: Option<string>,
    totalReferrals: nat,
    lastDailyBonus: Option<nat>,
    commentCount: nat,
    lastComment: Option<nat>
  )

  const NEW_USER := User(0, 0, 0, 0, Iron, None, 0, None, 0, None)

  datatype ReferralRow = ReferralRow(referrer: string, pointsAwarded: nat, completed: bool)

  /** The users by wallet, the unique index of their referral codes, and the referrals by
      referred wallet, of which there is at most one each. */
  datatype Points = Points(users: map<string, User>, byCode: map<string, string>, referrals: map<string, ReferralRow>)

  datatype Source = FromReferral | FromTrading | FromBonus

  /** SpacePoints.addPoints: one field, the total and the level together. */
  function AddPoints(u: User, points: nat, source: Source): User {
    var total := u.total + points;
    match source
    case FromReferral => u.(referral := u.referral + points, total := total, level := CalculateLevel(total))
    case FromTrading => u.(trading := u.trading + points, total := total, level := CalculateLevel(total))
    case FromBonus => u.(bonus := u.bonus + points, total := total, level := CalculateLevel(total))
  }

  // ------------------------------------------------------------------------- operations

  /** Creating a points record; a taken code violates the unique index and creates nothing. */
  function Register(p: Points, wallet: string, code: string): Points {
    if wallet in p.users || code in p.byCode then p
    else p.(users := p.users[wallet := NEW_USER], byCode := p.byCode[code := wallet])
  }

  predicate CanApply(p: Points, wallet: string, code: string) {
    && code in p.byCode
    && p.byCode[code] != wallet
    && (wallet in p.users ==> p.users[wallet].referredBy == None)
    && wallet !in p.referrals
  }

  /** Applying a code; `ownCode` is the code generated for a wallet without a record. */
  function Apply(p: Points, wallet: string, code: string, ownCode: string): Points {
    if !CanApply(p, wallet, code) || (wallet !in p.users && ownCode in p.byCode) then p
    else
      var referrer := p.byCode[code];
      var base := if wallet in p.users then p.users[wallet] else NEW_USER;
      Points(
        p.users[wallet := AddPoints(base, REFERRED_BONUS, FromBonus).(referredBy := Some(referrer))],
        if wallet in p.users then p.byCode else p.byCode[ownCode := wallet],
        p.referrals[wallet := ReferralRow(referrer, REFERRAL_BONUS, false)])
  }

  /** The four trading awards differ in their points only; nothing is awarded to a wallet
      without a record. */
  function AwardTrade(p: Points, wallet: string, points: nat): Points {
    if wallet !in p.users then p else p.(users := p.users[wallet := AddPoints(p.users[wallet], points, FromTrading)])
  }

  function CommentsToday(u: User, today: nat): nat {
    if u.lastComment == Some(today) then u.commentCount else 0
  }

  function AwardComment(p: Points, wallet: string, today: nat): Points {
    if wallet !in p.users || CommentsToday(p.users[wallet], today) >= COMMENT_DAILY_CAP then p
    else
      var u := p.users[wallet];
      p.(users := p.users[wallet := AddPoints(u, COMMENT, FromBonus)
                                      .(commentCount := CommentsToday(u, today) + 1, lastComment := Some(today))])
  }

  function ClaimDaily(p: Points, wallet: string, today: nat): Points {
    if wallet !in p.users || p.users[wallet].lastDailyBonus == Some(today) then p
    else p.(users := p.users[wallet :=
      AddPoints(p.users[wallet], DAILY_LOGIN_BONUS, FromBonus).(lastDailyBonus := Some(today))])
  }

  predicate IsPending(p: Points, trader: string) {
    trader in p.referrals && !p.referrals[trader].completed
  }

  /** The transaction of the credit: the conditional update claims the pending referral,
      and only the call that claimed it credits the referrer. */
  function Credit(p: Points, trader: string): Points {
    if !IsPending(p, trader) then p
    else
      var r := p.referrals[trader];
      var claimed := p.(referrals := p.referrals[trader := r.(completed := true)]);
      if r.referrer !in p.users then claimed
      else
        var u := AddPoints(p.users[r.referrer], REFERRAL_BONUS, FromReferral);
        claimed.(users := p.users[r.referrer := u.(totalReferrals := u.totalReferrals + 1)])
  }

  class ReferralService {
    var users: map<string, User>
    var byCode: map<string, string>
    var referrals: map<string, ReferralRow>

    ghost function Contents(): Points
      reads this
    {
      Points(users, byCode, referrals)
    }

    constructor ()
      ensures Contents() == Points(map[], map[], map[])
    {
      users, byCode, referrals := map[], map[], map[];
    }

    method GetOrCreateUserPoints(wallet: string, code: string) returns (r: Result<User>)
      modifies this
      ensures Contents() == Register(old(Contents()), wallet, code)
      ensures r.Ok? <==> wallet in users
      ensures r.Ok? ==> r.value == users[wallet]
      ensures wallet !in old(users) && r.Ok? ==>
              users == old(users)[wallet := NEW_USER] && byCode == old(byCode)[code := wallet]
      ensures r.Ok? <==> wallet in old(users) || code !in old(byCode)
      ensures (wallet in old(users) ==> users == old(users) && byCode == old(byCode)) && referrals == old(referrals)
    {
      if wallet !in users {
        if code in byCode {
          return Err("unique violation");
        }
        users := users[wallet := NEW_USER];
        byCode := byCode[code := wallet];
      }
      return Ok(users[wallet]);
    }

    method ApplyReferralCode(wallet: string, code: string, ownCode: string) returns (r: Result<nat>)
      modifies this
      ensures Contents() == Apply(old(Contents()), wallet, code, ownCode)
      ensures r.Ok? <==>
              && code in old(byCode) && old(byCode)[code] != wallet
              && (wallet in old(users) ==> old(users)[wallet].referredBy.None?)
              && wallet !in old(referrals) && (wallet in old(users) || ownCode !in old(byCode))
      ensures r.Err? ==> Contents() == old(Contents())
      ensures r.Ok? ==> r.value == 100
    {
      if code !in byCode {
        return Err("Invalid referral code");
      }
      var referrer := byCode[code];
      if referrer == wallet {
        return Err("Cannot use your own referral code");
      }
      if wallet in users && users[wallet].referredBy.Some? {
        return Err("Already applied a referral code");
      }
      if wallet in referrals {
        return Err("Referral already applied");
      }
      if wallet !in users {
        if ownCode in byCode {
          return Err("unique violation");
        }
        users := users[wallet :=
          NEW_USER.(referredBy := Some(referrer), total := REFERRED_BONUS, bonus := REFERRED_BONUS)];
        byCode := byCode[ownCode := wallet];
      } else {
        var u := users[wallet];
        users := users[wallet := u.(referredBy := Some(referrer), total := u.total + REFERRED_BONUS,
                                    bonus := u.bonus + REFERRED_BONUS,
                                      level := CalculateLevel(u.total + REFERRED_BONUS))];
      }
      referrals := referrals[wallet := ReferralRow(referrer, REFERRAL_BONUS, false)];
      return Ok(REFERRED_BONUS);
    }

    method AddTradePoints(wallet: string, points: nat)
      modifies this
      ensures Contents() == AwardTrade(old(Contents()), wallet, points)
      ensures wallet !in old(users) ==> users == old(users)
      ensures wallet in old(users) ==>
              var u := old(users)[wallet];
              && wallet in users
              && users[wallet] == u.(total := u.total + points, trading := u.trading + points,
                 level := users[wallet].level)
              && users == old(users)[wallet := users[wallet]]
    {
      if wallet !in users {
        return;
      }
      var u := users[wallet];
      var newTotal := u.total + points;
      users := users[wallet := u.(total := newTotal, trading := u.trading + points, level := CalculateLevel(newTotal))];
    }

    method AddCommentPoints(wallet: string, today: nat) returns (awarded: bool)
      modifies this
      ensures Contents() == AwardComment(old(Contents()), wallet, today)
      ensures awarded <==>
              wallet in old(users)
              && (old(users)[wallet].lastComment != Some(today) || old(users)[wallet].commentCount < 3)
      ensures !awarded ==> users == old(users)
      ensures awarded ==>
              var u := old(users)[wallet];
              && wallet in users
              && users[wallet] == u.(total := u.total + 100, bonus := u.bonus + 100, level := users[wallet].level,
                                     lastComment := Some(today), commentCount :=
                                     if u.lastComment == Some(today) then u.commentCount + 1 else 1)
              && users == old(users)[wallet := users[wallet]]
    {
      if wallet !in users {
        return false;
      }
      var u := users[wallet];
      var commentCount := u.commentCount;
      if u.lastComment != Some(today) {
        commentCount := 0;
      }
      if commentCount >= COMMENT_DAILY_CAP {
        return false;
      }
      var newTotal := u.total + COMMENT;
      users := users[wallet := u.(total := newTotal, bonus := u.bonus + COMMENT, commentCount := commentCount + 1,
                                  lastComment := Some(today), level := CalculateLevel(newTotal))];
      return true;
    }

    method ClaimDailyBonus(wallet: string, today: nat) returns (claimed: bool)
      modifies this
      ensures Contents() == ClaimDaily(old(Contents()), wallet, today)
      ensures claimed <==> wallet in old(users) && old(users)[wallet].lastDailyBonus != Some(today)
      ensures !claimed ==> users == old(users)
      ensures claimed ==>
              var u := old(users)[wallet];
              && wallet in users
              && users[wallet] == u.(total := u.total + 10, bonus := u.bonus + 10, level := users[wallet].level,
                                     lastDailyBonus := Some(today))
              && users == old(users)[wallet := users[wallet]]
    {
      if wallet !in users {
        return false;
      }
      var u := users[wallet];
      if u.lastDailyBonus == Some(today) {
        return false;
      }
      var newTotal := u.total + DAILY_LOGIN_BONUS;
      users := users[wallet := u.(total := newTotal, bonus := u.bonus + DAILY_LOGIN_BONUS,
                                  lastDailyBonus := Some(today), level := CalculateLevel(newTotal))];
      return true;
    }

    method CreditReferrerOnFirstTrade(trader: string) returns (credited: bool)
      modifies this
      ensures Contents() == Credit(old(Contents()), trader)
      ensures credited <==> IsPending(old(Contents()), trader) && old(referrals)[trader].referrer in old(users)
    {
      if trader !in referrals || referrals[trader].completed {
        return false;
      }
      var pending := referrals[trader];
      referrals := referrals[trader := pending.(completed := true)];
      if pending.referrer !in users {
        return false;
      }
      var u := users[pending.referrer];
      var newTotal := u.total + REFERRAL_BONUS;
      users := users[pending.referrer := u.(total := newTotal, referral := u.referral + REFERRAL_BONUS,
                                            totalReferrals := u.totalReferrals + 1, level := CalculateLevel(newTotal))];
      return true;
    }
  }

  // ------------------------------------------------------------------------- the invariant

  /** The referrals through this wallet that have been completed. */
  ghost function CompletedBy(referrals: map<string, ReferralRow>, wallet: string): set<string> {
    set k | k in referrals && referrals[k].completed && referrals[k].referrer == wallet
  }

  /** A pending referral is nobody's completed one. */
  lemma PendingAddsNone(referrals: map<string, ReferralRow>, k: string, row: ReferralRow, w: string)
    requires k !in referrals && !row.completed
    ensures CompletedBy(referrals[k := row], w) == CompletedBy(referrals, w)
  {
  }

  lemma CompletionAddsOne(referrals: map<string, ReferralRow>, k: string, w: string)
    requires k in referrals && !referrals[k].completed
    ensures var after := referrals[k := referrals[k].(completed := true)];
            |CompletedBy(after, w)| == |CompletedBy(referrals, w)| + if referrals[k].referrer == w then 1 else 0
  {
    var after := referrals[k := referrals[k].(completed := true)];
    assert CompletedBy(after, w) == CompletedBy(referrals, w) + if referrals[k].referrer == w then {k} else {};
  }

  ghost predicate UserOk(p: Points, w: string)
    requires w in p.users
  {
    var u := p.users[w];
    && u.total == u.referral + u.trading + u.bonus
    && u.level == CalculateLevel(u.total)
    && u.totalReferrals == |CompletedBy(p.referrals, w)|
    && u.referral == 10000 * u.totalReferrals
    && (u.referredBy.Some? <==> w in p.referrals)
    && (u.referredBy.Some? ==> p.referrals[w].referrer == u.referredBy.value && u.referredBy.value != w)
  }

  ghost predicate UsersOk(p: Points) {
    forall w :: w in p.users ==> UserOk(p, w)
  }

  /** Referrals and codes belong to known wallets, and every referral is worth the bonus. */
  predicate ReferralsOk(p: Points) {
    && (forall k :: k in p.referrals ==> k in p.users && p.referrals[k].referrer in p.users
                                         && p.referrals[k].pointsAwarded == REFERRAL_BONUS)
    && (forall c :: c in p.byCode ==> p.byCode[c] in p.users)
  }

  ghost predicate Inv(p: Points) {
    UsersOk(p) && ReferralsOk(p)
  }

  lemma RegisterKeepsInv(p: Points, wallet: string, code: string)
    requires Inv(p)
    ensures Inv(Register(p, wallet, code))
  {
    if wallet !in p.users && code !in p.byCode {
      assert CompletedBy(p.referrals, wallet) == {};
      var p' := Register(p, wallet, code);
      forall w | w in p'.users
        ensures UserOk(p', w)
      {
        if w != wallet {
          assert UserOk(p, w);
        }
      }
    }
  }

  /** A wallet gets its referrer: its own record is replaced, all others are untouched. */
  lemma ReferKeepsInv(p: Points, wallet: string, referrer: string, u: User, byCode: map<string, string>)
    requires Inv(p) && wallet !in p.referrals && referrer in p.users && referrer != wallet
    requires u.total == u.referral + u.trading + u.bonus && u.level == CalculateLevel(u.total)
    requires u.totalReferrals == |CompletedBy(p.referrals, wallet)| && u.referral == 10000 * u.totalReferrals
    requires u.referredBy == Some(referrer)
    requires forall c :: c in byCode ==> byCode[c] in p.users || byCode[c] == wallet
    ensures Inv(Points(p.users[wallet := u], byCode,
            p.referrals[wallet := ReferralRow(referrer, REFERRAL_BONUS, false)]))
  {
    var p' := Points(p.users[wallet := u], byCode, p.referrals[wallet := ReferralRow(referrer, REFERRAL_BONUS, false)]);
    forall w | w in p'.users
      ensures UserOk(p', w)
    {
      PendingAddsNone(p.referrals, wallet, ReferralRow(referrer, REFERRAL_BONUS, false), w);
      if w != wallet {
        assert UserOk(p, w);
      }
    }
  }

  /** What applying a code leaves behind: a hundred bonus points and the referrer for the
      wallet, one pending referral, and the wallet's own code if it is new. */
  lemma ApplyExact(p: Points, wallet: string, code: string, ownCode: string)
    requires code in p.byCode && p.byCode[code] != wallet && wallet !in p.referrals
    requires if wallet in p.users then p.users[wallet].referredBy.None? else ownCode !in p.byCode
    ensures var u := if wallet in p.users then p.users[wallet] else NEW_USER;
            var u' := u.(total := u.total + 100, bonus := u.bonus + 100, level := CalculateLevel(u.total + 100),
                         referredBy := Some(p.byCode[code]));
            Apply(p, wallet, code, ownCode)
            == Points(p.users[wallet := u'],
                      if wallet in p.users then p.byCode else p.byCode[ownCode := wallet],
                      p.referrals[wallet := ReferralRow(p.byCode[code], 10000, false)])
  {
  }

  /** Applying a code for an unknown wallet is registering it and then applying the code. */
  lemma ApplyRegisters(p: Points, wallet: string, code: string, ownCode: string)
    requires CanApply(p, wallet, code) && wallet !in p.users && ownCode !in p.byCode
    ensures var p1 := Register(p, wallet, ownCode);
            CanApply(p1, wallet, code) && wallet in p1.users
            && Apply(p, wallet, code, ownCode) == Apply(p1, wallet, code, ownCode)
  {
    assert Apply(p, wallet, code, ownCode).users == Apply(Register(p, wallet, ownCode), wallet, code, ownCode).users;
  }

  lemma ApplyExistingKeepsInv(p: Points, wallet: string, code: string, ownCode: string)
    requires Inv(p) && CanApply(p, wallet, code) && wallet in p.users
    ensures Inv(Apply(p, wallet, code, ownCode))
  {
    var referrer := p.byCode[code];
    var u := AddPoints(p.users[wallet], REFERRED_BONUS, FromBonus).(referredBy := Some(referrer));
    assert UserOk(p, wallet);
    ReferKeepsInv(p, wallet, referrer, u, p.byCode);
    assert Apply(p, wallet, code, ownCode) ==
           Points(p.users[wallet := u], p.byCode, p.referrals[wallet := ReferralRow(referrer, REFERRAL_BONUS, false)]);
  }

  lemma ApplyKeepsInv(p: Points, wallet: string, code: string, ownCode: string)
    requires Inv(p)
    ensures Inv(Apply(p, wallet, code, ownCode))
  {
    if CanApply(p, wallet, code) {
      if wallet in p.users {
        ApplyExistingKeepsInv(p, wallet, code, ownCode);
      } else if ownCode !in p.byCode {
        ApplyRegisters(p, wallet, code, ownCode);
        RegisterKeepsInv(p, wallet, ownCode);
        ApplyExistingKeepsInv(Register(p, wallet, ownCode), wallet, code, ownCode);
      }
    }
  }

  /** Awards that leave the referral fields alone. */
  lemma AwardKeepsInv(p: Points, wallet: string, u: User)
    requires Inv(p) && wallet in p.users
    requires u.total == u.referral + u.trading + u.bonus && u.level == CalculateLevel(u.total)
    requires var v := p.users[wallet];
             u.referral == v.referral && u.totalReferrals == v.totalReferrals && u.referredBy == v.referredBy
    ensures Inv(p.(users := p.users[wallet := u]))
  {
    var p' := p.(users := p.users[wallet := u]);
    forall w | w in p'.users
      ensures UserOk(p', w)
    {
      assert UserOk(p, w);
    }
  }

  lemma CreditKeepsUser(p: Points, trader: string, w: string)
    requires Inv(p) && IsPending(p, trader) && w in p.users
    ensures UserOk(Credit(p, trader), w)
  {
    assert UserOk(p, w);
    CompletionAddsOne(p.referrals, trader, w);
  }

  lemma CreditShape(p: Points, trader: string)
    requires IsPending(p, trader)
    ensures var p' := Credit(p, trader);
            && p'.users.Keys == p.users.Keys && p'.byCode == p.byCode
            && p'.referrals == p.referrals[trader := p.referrals[trader].(completed := true)]
  {
  }

  lemma CreditKeepsReferrals(p: Points, trader: string)
    requires ReferralsOk(p) && IsPending(p, trader)
    ensures ReferralsOk(Credit(p, trader))
  {
    CreditShape(p, trader);
    var p' := Credit(p, trader);
    assert forall w :: w in p.users ==> w in p'.users.Keys;
  }

  lemma CreditKeepsInv(p: Points, trader: string)
    requires Inv(p)
    ensures Inv(Credit(p, trader))
  {
    if IsPending(p, trader) {
      CreditShape(p, trader);
      CreditKeepsReferrals(p, trader);
      forall w | w in Credit(p, trader).users.Keys
        ensures UserOk(Credit(p, trader), w)
      {
        assert w in p.users.Keys;
        CreditKeepsUser(p, trader, w);
      }
    }
  }

  // --------------------------------------------------------------------- runs of the ledger

  /** The points operations, with the credit split in two: a lookup that finds a pending
      referral, and the transaction that some time later tries to claim it. */
  datatype Op =
    | RegisterOp(wallet: string, code: string)
    | ApplyOp(wallet: string, code: string, ownCode: string)
    | TradeOp(wallet: string, points: nat)
    | CommentOp(wallet: string, today: nat)
    | DailyOp(wallet: string, today: nat)
    | LookupOp(trader: string)
    | CommitOp(trader: string)

  /** `found` are the credit calls between lookup and commit, `credited` the traders whose
      referrer has been credited, in order. */
  datatype Ledger = Ledger(points: Points, found: multiset<string>, credited: seq<string>)

  const EMPTY_LEDGER := Ledger(Points(map[], map[], map[]), multiset{}, [])

  function Step(l: Ledger, op: Op): Ledger {
    match op
    case RegisterOp(w, code) => l.(points := Register(l.points, w, code))
    case ApplyOp(w, code, ownCode) => l.(points := Apply(l.points, w, code, ownCode))
    case TradeOp(w, points) => l.(points := AwardTrade(l.points, w, points))
    case CommentOp(w, today) => l.(points := AwardComment(l.points, w, today))
    case DailyOp(w, today) => l.(points := ClaimDaily(l.points, w, today))
    case LookupOp(trader) => if IsPending(l.points, trader) then l.(found := l.found + multiset{trader}) else l
    case CommitOp(trader) =>
      if trader !in l.found then l
      else Ledger(Credit(l.points, trader), l.found - multiset{trader},
                  l.credited + if IsPending(l.points, trader) then [trader] else [])
  }

  function Run(ops: seq<Op>): Ledger {
    if ops == [] then EMPTY_LEDGER else Step(Run(ops[..|ops| - 1]), ops[|ops| - 1])
  }

  /** A referral is completed exactly when its trader is among the credited, once. */
  ghost predicate CreditsOk(l: Ledger) {
    && (forall i, j :: 0 <= i < j < |l.credited| ==> l.credited[i] != l.credited[j])
    && (forall t :: t in l.credited <==> t in l.points.referrals && l.points.referrals[t].completed)
  }

  lemma TradeKeepsInv(p: Points, w: string, points: nat)
    requires Inv(p)
    ensures Inv(AwardTrade(p, w, points))
  {
    if w in p.users {
      assert UserOk(p, w);
      AwardKeepsInv(p, w, AddPoints(p.users[w], points, FromTrading));
    }
  }

  lemma CommentKeepsInv(p: Points, w: string, today: nat)
    requires Inv(p)
    ensures Inv(AwardComment(p, w, today))
  {
    if w in p.users {
      assert UserOk(p, w);
      var u := p.users[w];
      AwardKeepsInv(p, w, AddPoints(u, COMMENT, FromBonus)
                            .(commentCount := CommentsToday(u, today) + 1, lastComment := Some(today)));
    }
  }

  lemma DailyKeepsInv(p: Points, w: string, today: nat)
    requires Inv(p)
    ensures Inv(ClaimDaily(p, w, today))
  {
    if w in p.users {
      assert UserOk(p, w);
      AwardKeepsInv(p, w, AddPoints(p.users[w], DAILY_LOGIN_BONUS, FromBonus).(lastDailyBonus := Some(today)));
    }
  }

  lemma PointsKeepInv(l: Ledger, op: Op)
    requires Inv(l.points)
    ensures Inv(Step(l, op).points)
  {
    match op
    case RegisterOp(w, code) => RegisterKeepsInv(l.points, w, code);
    case ApplyOp(w, code, ownCode) => ApplyKeepsInv(l.points, w, code, ownCode);
    case TradeOp(w, points) => TradeKeepsInv(l.points, w, points);
    case CommentOp(w, today) => CommentKeepsInv(l.points, w, today);
    case DailyOp(w, today) => DailyKeepsInv(l.points, w, today);
    case LookupOp(_) =>
    case CommitOp(trader) => CreditKeepsInv(l.points, trader);
  }

  lemma CreditsKeepOk(l: Ledger, op: Op)
    requires CreditsOk(l)
    ensures CreditsOk(Step(l, op))
  {
    if op.CommitOp? && op.trader in l.found {
      var l' := Step(l, op);
      if IsPending(l.points, op.trader) {
        assert l'.credited == l.credited + [op.trader];
      } else {
        assert l'.credited == l.credited;
      }
    }
  }

  /** The points theorem: after every run, with any number of credit calls between their
      lookup and their commit, each wallet's total is the sum of its parts, its level is
      the level of its total, its referral points are ten thousand for each referral
      completed through it, and every completed referral was credited exactly once. */
  lemma {:induction false} RunsKeepInv(ops: seq<Op>)
    ensures Inv(Run(ops).points) && CreditsOk(Run(ops))
  {
    if ops != [] {
      RunsKeepInv(ops[..|ops| - 1]);
      PointsKeepInv(Run(ops[..|ops| - 1]), ops[|ops| - 1]);
      CreditsKeepOk(Run(ops[..|ops| - 1]), ops[|ops| - 1]);
    }
  }

  /** Once referred, a wallet keeps its referrer for ever, and a completed referral stays
      completed. */
  lemma ReferrerIsFinal(l: Ledger, op: Op, wallet: string)
    requires wallet in l.points.referrals
    ensures var r, referrals' := l.points.referrals[wallet], Step(l, op).points.referrals;
            && wallet in referrals' && referrals'[wallet].referrer == r.referrer
            && (r.completed ==> referrals'[wallet].completed)
  {
  }

  // ------------------------------------------------------------------------ daily limits

  /** The daily columns of one wallet. */
  predicate SameDays(u: User, u': User) {
    u'.lastDailyBonus == u.lastDailyBonus && u'.commentCount == u.commentCount && u'.lastComment == u.lastComment
  }

  lemma RegisterKeepsDays(p: Points, w: string, code: string, wallet: string)
    requires wallet in p.users
    ensures var users := Register(p, w, code).users; wallet in users && SameDays(p.users[wallet], users[wallet])
  {
  }

  lemma ApplyKeepsDays(p: Points, w: string, code: string, ownCode: string, wallet: string)
    requires wallet in p.users
    ensures var users := Apply(p, w, code, ownCode).users; wallet in users && SameDays(p.users[wallet], users[wallet])
  {
  }

  lemma CreditKeepsDays(p: Points, trader: string, wallet: string)
    requires wallet in p.users
    ensures var users := Credit(p, trader).users; wallet in users && SameDays(p.users[wallet], users[wallet])
  {
  }

  /** Only its own comment and its own daily claim move a wallet's daily columns. */
  lemma StepOnDays(l: Ledger, op: Op, wallet: string)
    requires wallet in l.points.users
    ensures wallet in Step(l, op).points.users
    ensures var u, u' := l.points.users[wallet], Step(l, op).points.users[wallet];
            && u'.lastDailyBonus == (if op.DailyOp? && op.wallet == wallet then Some(op.today) else u.lastDailyBonus)
            && if op.CommentOp? && op.wallet == wallet && CommentsToday(u, op.today) < 3 then
                 u'.commentCount == CommentsToday(u, op.today) + 1 && u'.lastComment == Some(op.today)
               else u'.commentCount == u.commentCount && u'.lastComment == u.lastComment
  {
    match op
    case RegisterOp(w, code) => RegisterKeepsDays(l.points, w, code, wallet);
    case ApplyOp(w, code, ownCode) => ApplyKeepsDays(l.points, w, code, ownCode, wallet);
    case CommitOp(trader) => CreditKeepsDays(l.points, trader, wallet);
    case _ =>
  }

  /** Once the bonus of a day has been paid, no claim of that day pays again, whatever has
      happened since, as long as no other day has begun. */
  lemma {:induction false} DailyBonusIsOnce(ops: seq<Op>, more: seq<Op>, wallet: string, today: nat)
    requires wallet in Run(ops).points.users
    requires forall k :: 0 <= k < |more| && more[k].DailyOp? && more[k].wallet == wallet ==> more[k].today == today
    ensures var l := Run(ops + [DailyOp(wallet, today)] + more);
            && wallet in l.points.users && l.points.users[wallet].lastDailyBonus == Some(today)
            && Step(l, DailyOp(wallet, today)) == l
  {
    var first := ops + [DailyOp(wallet, today)];
    if more == [] {
      assert first + more == first;
      RunOfOneMore(ops, DailyOp(wallet, today));
    } else {
      var n := |more| - 1;
      DailyBonusIsOnce(ops, more[..n], wallet, today);
      StepOnDays(Run(first + more[..n]), more[n], wallet);
      RunOfLonger(first, more);
    }
  }

  /** How often this wallet asks for comment points on this day. */
  function Comments(ops: seq<Op>, wallet: string, today: nat): nat {
    if ops == [] then 0
    else Comments(ops[..|ops| - 1], wallet, today) + if ops[|ops| - 1] == CommentOp(wallet, today) then 1 else 0
  }

  lemma StepCountsComment(l: Ledger, op: Op, wallet: string, today: nat)
    requires wallet in l.points.users && CommentsToday(l.points.users[wallet], today) <= 3
    requires op.CommentOp? && op.wallet == wallet ==> op.today == today
    ensures wallet in Step(l, op).points.users
    ensures CommentsToday(Step(l, op).points.users[wallet], today)
         == Min(3, CommentsToday(l.points.users[wallet], today) + if op == CommentOp(wallet, today) then 1 else 0)
  {
    StepOnDays(l, op, wallet);
  }

  /** Within a day, every comment counts until three have been paid, and then none. */
  lemma {:induction false} CommentsAreCapped(ops: seq<Op>, more: seq<Op>, wallet: string, today: nat)
    requires wallet in Run(ops).points.users
    requires forall k :: 0 <= k < |more| && more[k].CommentOp? && more[k].wallet == wallet ==> more[k].today == today
    ensures var users := Run(ops + more).points.users;
            && wallet in users
            && CommentsToday(users[wallet], today)
            == Min(3, CommentsToday(Run(ops).points.users[wallet], today) + Comments(more, wallet, today))
  {
    CountsAreCapped(ops, wallet);
    if more == [] {
      assert ops + more == ops;
    } else {
      var n := |more| - 1;
      var before, op := more[..n], more[n];
      assert forall k :: 0 <= k < n ==> before[k] == more[k];
      CommentsAreCapped(ops, before, wallet, today);
      RunOfLonger(ops, more);
      CountsOneMore(Run(ops + before), op, wallet, today, CommentsToday(Run(ops).points.users[wallet], today),
                    Comments(before, wallet, today));
    }
  }

  lemma CountsOneMore(l: Ledger, op: Op, wallet: string, today: nat, start: nat, comments: nat)
    requires wallet in l.points.users && CommentsToday(l.points.users[wallet], today) == Min(3, start + comments)
    requires op.CommentOp? && op.wallet == wallet ==> op.today == today
    ensures wallet in Step(l, op).points.users
    ensures CommentsToday(Step(l, op).points.users[wallet], today)
         == Min(3, start + comments + if op == CommentOp(wallet, today) then 1 else 0)
  {
    StepCountsComment(l, op, wallet, today);
  }

  /** No count is ever above three. */
  lemma {:induction false} CountsAreCapped(ops: seq<Op>, wallet: string)
    requires wallet in Run(ops).points.users
    ensures Run(ops).points.users[wallet].commentCount <= 3
  {
    if ops != [] {
      var n := |ops| - 1;
      if wallet in Run(ops[..n]).points.users {
        CountsAreCapped(ops[..n], wallet);
        StepOnDays(Run(ops[..n]), ops[n], wallet);
      } else {
        NewWalletHasNoComments(Run(ops[..n]), ops[n], wallet);
      }
    }
  }

  lemma NewWalletHasNoComments(l: Ledger, op: Op, wallet: string)
    requires wallet !in l.points.users && wallet in Step(l, op).points.users
    ensures Step(l, op).points.users[wallet].commentCount == 0
  {
    match op
    case CommitOp(trader) =>
      if IsPending(l.points, trader) {
        CreditShape(l.points, trader);
      }
    case _ =>
  }

  // -------------------------------------------------------- awards that interleave

  datatype Award = TradingAward(points: nat) | CommentAward(today: nat) | DailyAward(today: nat)

  function PointsOf(a: Award): nat {
    match a
    case TradingAward(points) => points
    case CommentAward(_) => COMMENT
    case DailyAward(_) => DAILY_LOGIN_BONUS
  }

  /** Comments and daily bonuses are refused on what the row said when it was read. */
  predicate Granted(read: User, a: Award) {
    match a
    case TradingAward(_) => true
    case CommentAward(today) => CommentsToday(read, today) < COMMENT_DAILY_CAP
    case DailyAward(today) => read.lastDailyBonus != Some(today)
  }

  /** The save of an award whose row was read earlier: the columns it writes come from the
      old row, the others stay as they are now. */
  function StaleAward(read: User, now: User, a: Award): User {
    var total := read.total + PointsOf(a);
    var saved := now.(total := total, level := CalculateLevel(total));
    if !Granted(read, a) then now
    else
      match a
      case TradingAward(points) => saved.(trading := read.trading + points)
      case CommentAward(today) =>
        saved.(bonus := read.bonus + COMMENT, commentCount := CommentsToday(read, today) + 1,
          lastComment := Some(today))
      case DailyAward(today) => saved.(bonus := read.bonus + DAILY_LOGIN_BONUS, lastDailyBonus := Some(today))
  }

  /** Saved over the row it was read from, an award is the atomic operation. */
  lemma FreshAwardIsAtomic(p: Points, wallet: string, a: Award)
    requires wallet in p.users
    ensures p.(users := p.users[wallet := StaleAward(p.users[wallet], p.users[wallet], a)]) ==
            match a
            case TradingAward(points) => AwardTrade(p, wallet, points)
            case CommentAward(today) => AwardComment(p, wallet, today)
            case DailyAward(today) => ClaimDaily(p, wallet, today)
  {
    assert p.users[wallet := p.users[wallet]] == p.users;
  }

  /** No operation takes points away. */
  predicate Grows(u: User, u': User) {
    u.total <= u'.total && u.referral <= u'.referral && u.trading <= u'.trading && u.bonus <= u'.bonus
  }

  ghost predicate AllGrow(p: Points, p': Points) {
    forall w :: w in p.users ==> w in p'.users && Grows(p.users[w], p'.users[w])
  }

  /** One record changed for the better, or one added. */
  lemma UpdateGrows(p: Points, p': Points, w: string, u: User)
    requires p'.users == p.users[w := u] && (w in p.users ==> Grows(p.users[w], u))
    ensures AllGrow(p, p')
  {
  }

  lemma AwardsGrow(p: Points, w: string, points: nat, today: nat)
    ensures AllGrow(p, AwardTrade(p, w, points)) && AllGrow(p, AwardComment(p, w, today))
            && AllGrow(p, ClaimDaily(p, w, today))
  {
    if w in p.users {
      if AwardTrade(p, w, points) != p {
        UpdateGrows(p, AwardTrade(p, w, points), w, AwardTrade(p, w, points).users[w]);
      }
      if AwardComment(p, w, today) != p {
        UpdateGrows(p, AwardComment(p, w, today), w, AwardComment(p, w, today).users[w]);
      }
      if ClaimDaily(p, w, today) != p {
        UpdateGrows(p, ClaimDaily(p, w, today), w, ClaimDaily(p, w, today).users[w]);
      }
    }
  }

  lemma RegisterGrows(p: Points, w: string, code: string)
    ensures AllGrow(p, Register(p, w, code))
  {
  }

  lemma ApplyGrows(p: Points, w: string, code: string, ownCode: string)
    ensures AllGrow(p, Apply(p, w, code, ownCode))
  {
    if Apply(p, w, code, ownCode) != p {
      UpdateGrows(p, Apply(p, w, code, ownCode), w, Apply(p, w, code, ownCode).users[w]);
    }
  }

  lemma CreditGrows(p: Points, trader: string)
    ensures AllGrow(p, Credit(p, trader))
  {
    if IsPending(p, trader) && p.referrals[trader].referrer in p.users {
      var w := p.referrals[trader].referrer;
      UpdateGrows(p, Credit(p, trader), w, Credit(p, trader).users[w]);
    }
  }

  lemma StepGrows(l: Ledger, op: Op)
    ensures AllGrow(l.points, Step(l, op).points)
  {
    match op
    case RegisterOp(w, code) => RegisterGrows(l.points, w, code);
    case ApplyOp(w, code, ownCode) => ApplyGrows(l.points, w, code, ownCode);
    case TradeOp(w, points) => AwardsGrow(l.points, w, points, 0);
    case CommentOp(w, today) => AwardsGrow(l.points, w, 0, today);
    case DailyOp(w, today) => AwardsGrow(l.points, w, 0, today);
    case LookupOp(_) =>
    case CommitOp(trader) => CreditGrows(l.points, trader);
  }

  lemma RunOfLonger(ops: seq<Op>, more: seq<Op>)
    requires more != []
    ensures Run(ops + more) == Step(Run(ops + more[..|more| - 1]), more[|more| - 1])
  {
    ConcatInit(ops, more);
  }

  lemma {:induction false} RunsGrow(ops: seq<Op>, more: seq<Op>)
    ensures AllGrow(Run(ops).points, Run(ops + more).points)
  {
    if more == [] {
      assert ops + more == ops;
    } else {
      var n := |more| - 1;
      RunsGrow(ops, more[..n]);
      StepGrows(Run(ops + more[..n]), more[n]);
      RunOfLonger(ops, more);
    }
  }

  /** The two columns of the sum that the award does not write are what they were. */
  predicate OthersUnchanged(read: User, now: User, a: Award) {
    && now.referral == read.referral
    && if a.TradingAward? then now.bonus == read.bonus else now.trading == read.trading
  }

  /** What the award should have left behind: its points on top of the row as it is now. */
  predicate NothingLost(now: User, u: User, a: Award) {
    && u.total == now.total + PointsOf(a)
    && if a.TradingAward? then u.trading == now.trading + PointsOf(a) else u.bonus == now.bonus + PointsOf(a)
  }

  /** Awards are read and saved without a lock. For a row read after `ops` and saved after
      `more` has run as well: the total is still the sum of its parts if and only if the two
      parts that the award does not write have not changed in between, and nothing is lost
      if and only if no points of any kind came in between. */
  lemma StaleAwardExact(ops: seq<Op>, more: seq<Op>, wallet: string, a: Award)
    requires wallet in Run(ops).points.users && Granted(Run(ops).points.users[wallet], a)
    ensures wallet in Run(ops + more).points.users
    ensures var read, now := Run(ops).points.users[wallet], Run(ops + more).points.users[wallet];
            var u := StaleAward(read, now, a);
            && (u.total == u.referral + u.trading + u.bonus <==> OthersUnchanged(read, now, a))
            && (NothingLost(now, u, a) <==> now.total == read.total)
  {
    RunsGrow(ops, more);
    RunsKeepInv(ops);
    RunsKeepInv(ops + more);
    assert UserOk(Run(ops).points, wallet) && UserOk(Run(ops + more).points, wallet);
  }

  const ALICE := "alice"
  const BOB := "bob"

  const ALICE_ALONE := Points(map[ALICE := NEW_USER], map["A" := ALICE], map[])

  lemma BobApplies()
    ensures Register(EMPTY_LEDGER.points, ALICE, "A") == ALICE_ALONE
    ensures var p := Apply(ALICE_ALONE, BOB, "A", "B");
            && ALICE in p.users && p.users[ALICE] == NEW_USER
            && BOB in p.referrals && p.referrals[BOB] == ReferralRow(ALICE, REFERRAL_BONUS, false)
  {
    assert ALICE[0] != BOB[0];
    assert "A"[0] != "B"[0];
  }

  lemma BobIsReferred() returns (ops: seq<Op>)
    ensures Run(ops).points == Apply(ALICE_ALONE, BOB, "A", "B")
  {
    ops := [RegisterOp(ALICE, "A")] + [ApplyOp(BOB, "A", "B")];
    AliceRegisters();
    RunOfOneMore([RegisterOp(ALICE, "A")], ApplyOp(BOB, "A", "B"));
  }

  /** A run in which it happens: a trading award for the referrer is read, the referral is
      credited, the award is saved. Ten thousand points are in the parts and not in the
      total. */
  lemma StaleAwardIsReached() returns (ops: seq<Op>, more: seq<Op>)
    ensures ALICE in Run(ops).points.users && ALICE in Run(ops + more).points.users
    ensures var u := StaleAward(Run(ops).points.users[ALICE], Run(ops + more).points.users[ALICE], TradingAward(1000));
            u.total == 1000 && u.trading == 1000 && u.referral == 10000
  {
    ops := BobIsReferred();
    BobApplies();
    more := [LookupOp(BOB), CommitOp(BOB)];
    var l := Run(ops);
    RunOfLonger(ops, [LookupOp(BOB)]);
    assert ops + [LookupOp(BOB)][..0] == ops;
    RunOfLonger(ops, more);
    assert more[..1] == [LookupOp(BOB)];
    AliceIsCredited(l);
  }

  lemma AliceIsCredited(l: Ledger)
    requires ALICE in l.points.users && l.points.users[ALICE] == NEW_USER
    requires BOB in l.points.referrals && l.points.referrals[BOB] == ReferralRow(ALICE, REFERRAL_BONUS, false)
    ensures var users := Step(Step(l, LookupOp(BOB)), CommitOp(BOB)).points.users;
            ALICE in users && users[ALICE].referral == 10000
  {
  }

  /** And one with a comment: a trading award lands between the comment's read and its save.
      A thousand points are in the parts and not in the total, although no referral or bonus
      points came in between. */
  lemma StaleCommentIsReached() returns (ops: seq<Op>, more: seq<Op>)
    ensures ALICE in Run(ops).points.users && ALICE in Run(ops + more).points.users
    ensures var read, now := Run(ops).points.users[ALICE], Run(ops + more).points.users[ALICE];
            var u := StaleAward(read, now, CommentAward(0));
            && now.referral == read.referral && now.bonus == read.bonus
            && u.total == 100 && u.bonus == 100 && u.trading == 1000
  {
    ops, more := [RegisterOp(ALICE, "A")], [TradeOp(ALICE, 1000)];
    AliceRuns();
    AliceTrades();
    StaleComment(ALICE_ALONE.users[ALICE], AwardTrade(ALICE_ALONE, ALICE, 1000).users[ALICE]);
  }

  lemma StaleComment(read: User, now: User)
    requires read == NEW_USER && now == NEW_USER.(total := 1000, trading := 1000)
    ensures var u := StaleAward(read, now, CommentAward(0));
            && now.referral == read.referral && now.bonus == read.bonus
            && u.total == 100 && u.bonus == 100 && u.trading == 1000
  {
  }

  lemma AliceRuns()
    ensures Run([RegisterOp(ALICE, "A")]).points == ALICE_ALONE
    ensures Run([RegisterOp(ALICE, "A")] + [TradeOp(ALICE, 1000)]).points == AwardTrade(ALICE_ALONE, ALICE, 1000)
  {
    AliceRegisters();
    RunOfOneMore([RegisterOp(ALICE, "A")], TradeOp(ALICE, 1000));
    TradeUpdates(Run([RegisterOp(ALICE, "A")]));
  }

  lemma RunOfOneMore(ops: seq<Op>, op: Op)
    ensures Run(ops + [op]) == Step(Run(ops), op)
  {
    AppendInit(ops, op);
  }

  lemma TradeUpdates(l: Ledger)
    ensures Step(l, TradeOp(ALICE, 1000)).points == AwardTrade(l.points, ALICE, 1000)
  {
  }

  lemma AliceRegisters()
    ensures Run([RegisterOp(ALICE, "A")]).points == ALICE_ALONE
  {
    BobApplies();
    assert [RegisterOp(ALICE, "A")][..0] == [];
  }

  lemma AliceTrades()
    ensures var users := AwardTrade(ALICE_ALONE, ALICE, 1000).users;
            ALICE in users && users[ALICE] == NEW_USER.(total := 1000, trading := 1000)
  {
  }
}
