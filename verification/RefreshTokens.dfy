/**
 * Refresh-token rotation (backend/app/services/auth.py, backend/app/repositories/refresh_tokens.py).
 * A token is known by its row: the stored hash is taken as injective, so presenting an unknown
 * value is presenting a row that does not exist. Each call is one transaction.
 */
module RefreshTokens {
  import opened Prelude

  datatype Token = Token(family: nat, parent: Option<nat>, user: Id, expires: int, revoked: bool)

  // --- the repository -----------------------------------------------------------------------------

  /** A token without a family starts one, named after itself. */
  function Create(tokens: seq<Token>, user: Id, expires: int, family: Option<nat>, parent: Option<nat>): seq<Token> {
    tokens + [Token(if family.Some? then family.value else |tokens|, parent, user, expires, false)]
  }

  predicate Consumable(tokens: seq<Token>, t: nat, now: int) {
    t < |tokens| && !tokens[t].revoked && tokens[t].expires > now
  }

  datatype Criterion = OfFamily(family: nat) | OfUser(user: Id)

  predicate Hits(which: Criterion, token: Token) {
    match which case OfFamily(f) => token.family == f case OfUser(u) => token.user == u
  }

  /** One UPDATE over the whole table. */
  function Revoke(tokens: seq<Token>, which: Criterion): (r: seq<Token>)
    ensures |r| == |tokens|
  {
    seq(|tokens|, i requires 0 <= i < |tokens| => if Hits(which, tokens[i]) then tokens[i].(revoked := true)
      else tokens[i])
  }

  // --- the service --------------------------------------------------------------------------------

  /** What the transaction finds out about the account behind a token. */
  datatype Account = Account(userActive: bool, memberActive: bool)

  datatype Answer = Issued(token: nat) | Refused

  /** Rotation; a token that is already revoked takes its whole family with it. */
  function Refresh(tokens: seq<Token>, t: nat, account: Account, now: int, ttl: nat): (seq<Token>, Answer) {
    if Consumable(tokens, t, now) then
      var consumed := tokens[t := tokens[t].(revoked := true)];
      if !account.userActive then (Revoke(consumed, OfFamily(tokens[t].family)), Refused)
      else if !account.memberActive then (tokens, Refused)   // rolled back, the token survives
      else (Create(consumed, tokens[t].user, now + ttl, Some(tokens[t].family), Some(t)), Issued(|tokens|))
    else if t < |tokens| && tokens[t].revoked then (Revoke(tokens, OfFamily(tokens[t].family)), Refused)
    else (tokens, Refused)
  }

  function Logout(tokens: seq<Token>, t: nat): seq<Token> {
    if t < |tokens| then Revoke(tokens, OfFamily(tokens[t].family)) else tokens
  }

  function ChangePassword(
    tokens: seq<Token>, user: Id, passwordOk: bool, memberActive: bool, now: int, ttl: nat): seq<Token> {
    if passwordOk && memberActive then Create(Revoke(tokens, OfUser(user)), user, now + ttl, None, None) else tokens
  }

  datatype Event =
    | SignIn(user: Id, now: int, ttl: nat)
    | Present(token: nat, account: Account, now: int, ttl: nat)
    | SignOut(token: nat)
    | SignOutAll(user: Id)
    | NewPassword(user: Id, passwordOk: bool, memberActive: bool, now: int, ttl: nat)

  function Step(tokens: seq<Token>, ev: Event): seq<Token> {
    match ev
    case SignIn(user, now, ttl) => Create(tokens, user, now + ttl, None, None)
    case Present(t, account, now, ttl) => Refresh(tokens, t, account, now, ttl).0
    case SignOut(t) => Logout(tokens, t)
    case SignOutAll(user) => Revoke(tokens, OfUser(user))
    case NewPassword(user, passwordOk, memberActive, now, ttl) =>
      ChangePassword(tokens, user, passwordOk, memberActive, now, ttl)
  }

  function Run(tokens: seq<Token>, events: seq<Event>): seq<Token> {
    if events == [] then tokens else Step(Run(tokens, events[..|events| - 1]), events[|events| - 1])
  }

  // --- what every run keeps -----------------------------------------------------------------------

  /** A root names itself; any other token follows a revoked one of its own family and user. */
  predicate Linked(tokens: seq<Token>, t: nat)
    requires t < |tokens|
  {
    && (tokens[t].parent.None? <==> tokens[t].family == t)
    && tokens[t].family <= t
    && (tokens[t].parent.Some? ==>
          && tokens[t].parent.value < t
          && tokens[tokens[t].parent.value].family == tokens[t].family
          && tokens[tokens[t].parent.value].user == tokens[t].user)
  }

  /** An older token of a family is revoked, and the newer one descends from it or from a later one. */
  predicate Succeeds(tokens: seq<Token>, s: nat, t: nat)
    requires s < t < |tokens|
  {
    tokens[s].family == tokens[t].family ==>
      tokens[s].revoked && tokens[t].parent.Some? && tokens[t].parent.value >= s
  }

  ghost predicate Inv(tokens: seq<Token>) {
    && (forall t :: 0 <= t < |tokens| ==> Linked(tokens, t))
    && (forall s, t :: 0 <= s < t < |tokens| ==> Succeeds(tokens, s, t))
  }

  lemma NewRootKeepsInv(tokens: seq<Token>, user: Id, expires: int)
    requires Inv(tokens)
    ensures Inv(Create(tokens, user, expires, None, None))
  {
    var tokens' := Create(tokens, user, expires, None, None);
    forall t | 0 <= t < |tokens'| ensures Linked(tokens', t) { if t < |tokens| { assert Linked(tokens, t); } }
    forall s, t | 0 <= s < t < |tokens'| ensures Succeeds(tokens', s, t) {
      assert Linked(tokens, s);
      if t < |tokens| { assert Succeeds(tokens, s, t); }
    }
  }

  lemma RotationKeepsInv(tokens: seq<Token>, t: nat, expires: int)
    requires Inv(tokens) && t < |tokens| && !tokens[t].revoked
    ensures
      var consumed := tokens[t := tokens[t].(revoked := true)];
      Inv(Create(consumed, tokens[t].user, expires, Some(tokens[t].family), Some(t)))
  {
    var consumed := tokens[t := tokens[t].(revoked := true)];
    var tokens' := Create(consumed, tokens[t].user, expires, Some(tokens[t].family), Some(t));
    forall u | 0 <= u < |tokens'| ensures Linked(tokens', u) {
      assert Linked(tokens, t);
      if u < |tokens| { assert Linked(tokens, u); }
    }
    forall s, u | 0 <= s < u < |tokens'| ensures Succeeds(tokens', s, u) {
      if u < |tokens| {
        assert Succeeds(tokens, s, u);
      } else if s < t {
        assert Succeeds(tokens, s, t);
      } else if s > t {
        assert Succeeds(tokens, t, s);
      }
    }
  }

  lemma RevokeKeepsInv(tokens: seq<Token>, which: Criterion)
    requires Inv(tokens)
    ensures Inv(Revoke(tokens, which))
  {
    var tokens' := Revoke(tokens, which);
    forall t | 0 <= t < |tokens'| ensures Linked(tokens', t) { assert Linked(tokens, t); }
    forall s, t | 0 <= s < t < |tokens'| ensures Succeeds(tokens', s, t) { assert Succeeds(tokens, s, t); }
  }

  lemma ConsumeKeepsInv(tokens: seq<Token>, t: nat)
    requires Inv(tokens) && t < |tokens|
    ensures Inv(tokens[t := tokens[t].(revoked := true)])
  {
    var tokens' := tokens[t := tokens[t].(revoked := true)];
    forall u | 0 <= u < |tokens'| ensures Linked(tokens', u) { assert Linked(tokens, u); }
    forall s, u | 0 <= s < u < |tokens'| ensures Succeeds(tokens', s, u) { assert Succeeds(tokens, s, u); }
  }

  lemma RefreshKeepsInv(tokens: seq<Token>, t: nat, account: Account, now: int, ttl: nat)
    requires Inv(tokens)
    ensures Inv(Refresh(tokens, t, account, now, ttl).0)
  {
    hide Inv;
    if Consumable(tokens, t, now) {
      ConsumeKeepsInv(tokens, t);
      RevokeKeepsInv(tokens[t := tokens[t].(revoked := true)], OfFamily(tokens[t].family));
      RotationKeepsInv(tokens, t, now + ttl);
    } else if t < |tokens| {
      RevokeKeepsInv(tokens, OfFamily(tokens[t].family));
    }
  }

  lemma StepKeepsInv(tokens: seq<Token>, ev: Event)
    requires Inv(tokens)
    ensures Inv(Step(tokens, ev))
  {
    hide Inv, Refresh, Create;
    match ev
    case SignIn(user, now, ttl) => NewRootKeepsInv(tokens, user, now + ttl);
    case Present(t, account, now, ttl) => RefreshKeepsInv(tokens, t, account, now, ttl);
    case SignOut(t) => if t < |tokens| { RevokeKeepsInv(tokens, OfFamily(tokens[t].family)); }
    case SignOutAll(user) => RevokeKeepsInv(tokens, OfUser(user));
    case NewPassword(user, passwordOk, memberActive, now, ttl) =>
      RevokeKeepsInv(tokens, OfUser(user));
      NewRootKeepsInv(Revoke(tokens, OfUser(user)), user, now + ttl);
  }

  lemma {:induction false} EveryRunKeepsInv(tokens: seq<Token>, events: seq<Event>)
    requires Inv(tokens)
    ensures Inv(Run(tokens, events))
  {
    hide Inv, Step;
    if events != [] {
      EveryRunKeepsInv(tokens, events[..|events| - 1]);
      StepKeepsInv(Run(tokens, events[..|events| - 1]), events[|events| - 1]);
    }
  }

  // --- families -----------------------------------------------------------------------------------

  predicate Live(tokens: seq<Token>, t: nat) { t < |tokens| && !tokens[t].revoked }

  /** In every run a family has at most one unrevoked token. */
  lemma OneLivePerFamily(events: seq<Event>, s: nat, t: nat)
    requires var tokens := Run([], events); Live(tokens, s) && Live(tokens, t) && tokens[s].family == tokens[t].family
    ensures s == t
  {
    EveryRunKeepsInv([], events);
    var tokens := Run([], events);
    assert s < t ==> Succeeds(tokens, s, t);
    assert t < s ==> Succeeds(tokens, t, s);
  }

  /** In every run each family is one chain: a token's parent is the token of the family just before it. */
  lemma FamiliesAreChains(events: seq<Event>, s: nat, t: nat)
    requires s < t < |Run([], events)| && Run([], events)[s].family == Run([], events)[t].family
    ensures
      var tokens := Run([], events);
      && tokens[t].parent.Some? && s <= tokens[t].parent.value < t
      && tokens[tokens[t].parent.value].family == tokens[t].family && tokens[s].user == tokens[t].user
      && tokens[s].parent != tokens[t].parent
  {
    EveryRunKeepsInv([], events);
    var tokens := Run([], events);
    assert Linked(tokens, s) && Linked(tokens, t) && Succeeds(tokens, s, t);
    OneUserPerFamily(tokens, s, t);
  }

  lemma {:induction false} OneUserPerFamily(tokens: seq<Token>, s: nat, t: nat)
    requires Inv(tokens) && s <= t < |tokens| && tokens[s].family == tokens[t].family
    ensures tokens[s].user == tokens[t].user
    decreases t
  {
    if s < t {
      assert Linked(tokens, t) && Succeeds(tokens, s, t);
      OneUserPerFamily(tokens, s, tokens[t].parent.value);
    }
  }

  /** A family all of whose tokens are revoked. */
  predicate Emptied(tokens: seq<Token>, family: nat) {
    family < |tokens| && forall t :: 0 <= t < |tokens| && tokens[t].family == family ==> tokens[t].revoked
  }

  /** Presenting a token that is already revoked leaves its family without a live token. */
  lemma ReuseEmptiesFamily(tokens: seq<Token>, t: nat, account: Account, now: int, ttl: nat)
    requires Inv(tokens) && t < |tokens| && tokens[t].revoked
    ensures
      var (tokens', answer) := Refresh(tokens, t, account, now, ttl);
      answer == Refused && Emptied(tokens', tokens[t].family) && |tokens'| == |tokens|
  {
    assert Linked(tokens, t);
  }

  lemma EmptiedStays(tokens: seq<Token>, ev: Event, family: nat)
    requires Inv(tokens) && Emptied(tokens, family)
    ensures Emptied(Step(tokens, ev), family)
  {
  }

  /** A family once emptied never gains a live token again. */
  lemma {:induction false} EmptiedForGood(tokens: seq<Token>, events: seq<Event>, family: nat)
    requires Inv(tokens) && Emptied(tokens, family)
    ensures Emptied(Run(tokens, events), family)
  {
    hide Inv, Step, Emptied;
    if events != [] {
      EveryRunKeepsInv(tokens, events[..|events| - 1]);
      EmptiedForGood(tokens, events[..|events| - 1], family);
      EmptiedStays(Run(tokens, events[..|events| - 1]), events[|events| - 1], family);
    }
  }

  predicate HasLive(tokens: seq<Token>, family: nat) {
    exists t :: 0 <= t < |tokens| && tokens[t].family == family && !tokens[t].revoked
  }

  /**
   * Exactly when a presented token is exchanged, and what becomes of its family: it loses its live
   * token if the presented one was revoked before or its user is inactive, and in no other case;
   * in particular an inactive membership leaves the session alive. Other families are not touched.
   */
  lemma RefreshOutcome(tokens: seq<Token>, t: nat, account: Account, now: int, ttl: nat)
    requires t < |tokens|
    ensures
      var (tokens', answer) := Refresh(tokens, t, account, now, ttl);
      && (answer.Issued? <==>
            !tokens[t].revoked && tokens[t].expires > now && account.userActive && account.memberActive)
      && (answer.Issued? ==>
            && |tokens'| == |tokens| + 1 && answer.token == |tokens|
            && tokens'[|tokens|] == Token(tokens[t].family, Some(t), tokens[t].user, now + ttl, false))
      && (HasLive(tokens', tokens[t].family) <==>
            HasLive(tokens, tokens[t].family) && !tokens[t].revoked && (tokens[t].expires > now ==> account.userActive))
      && (forall i :: 0 <= i < |tokens| && tokens[i].family != tokens[t].family ==> tokens'[i] == tokens[i])
  {
    var (tokens', answer) := Refresh(tokens, t, account, now, ttl);
    var family := tokens[t].family;
    if answer.Issued? {
      assert tokens'[|tokens|].family == family && !tokens'[|tokens|].revoked;
      assert HasLive(tokens, family);
    } else if tokens' != tokens {
      assert forall i :: 0 <= i < |tokens'| && tokens'[i].family == family ==> tokens'[i].revoked;
    }
  }

  // --- signing in and out -------------------------------------------------------------------------

  /** Only the revoked mark of these tokens may differ, and it is set. */
  predicate OnlyRevoked(before: Token, after: Token) { after == before.(revoked := true) }

  /** A sign-in adds one live token that starts a family of its own, and changes no other. */
  lemma SignInOutcome(tokens: seq<Token>, user: Id, now: int, ttl: nat)
    ensures Step(tokens, SignIn(user, now, ttl)) == tokens + [Token(|tokens|, None, user, now + ttl, false)]
  {
  }

  /** Signing out revokes the family of the presented token and nothing else; an unknown token changes nothing. */
  lemma LogoutOutcome(tokens: seq<Token>, t: nat)
    ensures t >= |tokens| ==> Step(tokens, SignOut(t)) == tokens
    ensures t < |tokens| ==>
      var tokens' := Step(tokens, SignOut(t));
      && |tokens'| == |tokens|
      && forall i :: 0 <= i < |tokens| ==>
           if tokens[i].family == tokens[t].family then OnlyRevoked(tokens[i], tokens'[i]) else tokens'[i] == tokens[i]
  {
  }

  /** Signing out everywhere revokes every token of the user and no one else's. */
  lemma LogoutAllOutcome(tokens: seq<Token>, user: Id)
    ensures
      var tokens' := Step(tokens, SignOutAll(user));
      && |tokens'| == |tokens|
      && forall i :: 0 <= i < |tokens| ==>
           if tokens[i].user == user then OnlyRevoked(tokens[i], tokens'[i]) else tokens'[i] == tokens[i]
  {
  }

  /** A wrong password or an inactive membership leaves every session as it is. */
  lemma PasswordChangeRefused(tokens: seq<Token>, user: Id, passwordOk: bool, memberActive: bool, now: int, ttl: nat)
    requires !passwordOk || !memberActive
    ensures Step(tokens, NewPassword(user, passwordOk, memberActive, now, ttl)) == tokens
  {
  }

  /** Tokens are never removed and never change hands; an emptied family gets no new one. */
  lemma EmptiedGrowsNoMore(tokens: seq<Token>, ev: Event, family: nat)
    requires Inv(tokens) && Emptied(tokens, family)
    ensures
      var tokens' := Step(tokens, ev);
      && |tokens| <= |tokens'|
      && (forall i :: 0 <= i < |tokens| ==> tokens'[i].family == tokens[i].family && tokens'[i].user == tokens[i].user)
      && (forall i :: |tokens| <= i < |tokens'| ==> tokens'[i].family != family)
  {
  }

  /**
   * After a sign-out, whatever happens next: the family never again has a live token, no token is
   * ever issued into it, and presenting any of its tokens is refused.
   */
  lemma {:induction false} SignedOutForGood(tokens: seq<Token>, events: seq<Event>, family: nat)
    requires Inv(tokens) && Emptied(tokens, family)
    ensures
      var later := Run(tokens, events);
      && |tokens| <= |later| && Emptied(later, family)
      && (forall i :: |tokens| <= i < |later| ==> later[i].family != family)
      && (forall i: nat, account, now, ttl :: i < |later| && later[i].family == family ==>
            Refresh(later, i, account, now, ttl).1 == Refused)
  {
    hide Inv, Step, Refresh;
    if events != [] {
      var before := Run(tokens, events[..|events| - 1]);
      SignedOutForGood(tokens, events[..|events| - 1], family);
      EveryRunKeepsInv(tokens, events[..|events| - 1]);
      EmptiedStays(before, events[|events| - 1], family);
      EmptiedGrowsNoMore(before, events[|events| - 1], family);
    }
    RevokedIsRefused(Run(tokens, events), family);
  }

  lemma RevokedIsRefused(tokens: seq<Token>, family: nat)
    requires Emptied(tokens, family)
    ensures forall i: nat, account, now, ttl :: i < |tokens| && tokens[i].family == family ==>
      Refresh(tokens, i, account, now, ttl).1 == Refused
  {
  }

  /** In every run, presenting any token of a family that was signed out is refused for ever. */
  lemma SignOutEndsSession(events: seq<Event>, t: nat, more: seq<Event>)
    requires t < |Run([], events)|
    ensures
      var family := Run([], events)[t].family;
      var later := Run(Step(Run([], events), SignOut(t)), more);
      && Emptied(later, family)
      && (forall i :: |Run([], events)| <= i < |later| ==> later[i].family != family)
      && (forall i: nat, account, now, ttl :: i < |later| && later[i].family == family ==>
            Refresh(later, i, account, now, ttl).1 == Refused)
  {
    hide Run, Refresh;
    var tokens := Run([], events);
    EveryRunKeepsInv([], events);
    StepKeepsInv(tokens, SignOut(t));
    LogoutOutcome(tokens, t);
    assert Linked(tokens, t);
    SignedOutForGood(Step(tokens, SignOut(t)), more, tokens[t].family);
  }

  // --- one exchange per token ---------------------------------------------------------------------

  /** How often presenting token t was answered with a new token over a whole run. */
  function TimesExchanged(events: seq<Event>, t: nat): nat {
    if events == [] then 0
    else
      var before := events[..|events| - 1];
      var ev := events[|events| - 1];
      TimesExchanged(before, t)
      + (if ev.Present? && ev.token == t && Refresh(Run([], before), t, ev.account, ev.now, ev.ttl).1.Issued? then 1
        else 0)
  }

  lemma RevokedStays(tokens: seq<Token>, ev: Event, t: nat)
    requires t < |tokens|
    ensures t < |Step(tokens, ev)| && (tokens[t].revoked ==> Step(tokens, ev)[t].revoked)
    ensures ev.Present? && ev.token == t && Refresh(tokens, t, ev.account, ev.now, ev.ttl).1.Issued? ==>
      !tokens[t].revoked && Step(tokens, ev)[t].revoked
  {
  }

  /** Every token buys at most one successor, and is revoked once it has. */
  lemma {:induction false} ExchangedAtMostOnce(events: seq<Event>, t: nat)
    ensures TimesExchanged(events, t) <= 1
    ensures TimesExchanged(events, t) == 1 ==> t < |Run([], events)| && Run([], events)[t].revoked
  {
    hide Step, Refresh;
    if events != [] {
      var before := events[..|events| - 1];
      ExchangedAtMostOnce(before, t);
      if t < |Run([], before)| { RevokedStays(Run([], before), events[|events| - 1], t); }
      else { UnknownIsRefused(Run([], before), t); }
    }
  }

  lemma UnknownIsRefused(tokens: seq<Token>, t: nat)
    requires t >= |tokens|
    ensures forall account, now, ttl :: Refresh(tokens, t, account, now, ttl) == (tokens, Refused)
  {
  }

  /** Changing the password leaves the user exactly one live token, the one just issued, and no one else's changes. */
  lemma PasswordChangeReplacesSessions(tokens: seq<Token>, user: Id, now: int, ttl: nat, t: nat)
    ensures
      var tokens' := ChangePassword(tokens, user, true, true, now, ttl);
      && (Live(tokens', t) && tokens'[t].user == user <==> t == |tokens|)
      && |tokens'| == |tokens| + 1 && tokens'[|tokens|] == Token(|tokens|, None, user, now + ttl, false)
      && (t < |tokens| && tokens[t].user == user ==> OnlyRevoked(tokens[t], tokens'[t]))
      && (t < |tokens| && tokens[t].user != user ==> tokens'[t] == tokens[t])
  {
  }

  // --- the store ----------------------------------------------------------------------------------

  function LiveOf(): Token -> int { (t: Token) => if t.revoked then 0 else 1 }

  /** The table as the service updates it. */
  class Store {
    var tokens: seq<Token>

    constructor ()
      ensures tokens == [] && Inv(tokens)
    {
      tokens := [];
    }

    method Consume(t: nat, now: int) returns (row: Option<Token>)
      modifies this
      ensures Consumable(old(tokens), t, now) ==>
        row == Some(old(tokens)[t]) && tokens == old(tokens)[t := old(tokens)[t].(revoked := true)]
      ensures !Consumable(old(tokens), t, now) ==> row == None && tokens == old(tokens)
    {
      if Consumable(tokens, t, now) {
        row := Some(tokens[t]);
        tokens := tokens[t := tokens[t].(revoked := true)];
      } else {
        row := None;
      }
    }

    /**
     * One bulk UPDATE, row by row. No live token is left that the criterion hits, the others stay as
     * they are, and the count returned is exactly by how many the live tokens have become fewer.
     */
    method RevokeWhere(which: Criterion) returns (revoked: nat)
      modifies this
      ensures tokens == Revoke(old(tokens), which)
      ensures forall t :: 0 <= t < |tokens| && Hits(which, tokens[t]) ==> tokens[t].revoked
      ensures forall t :: 0 <= t < |tokens| && !Hits(which, tokens[t]) ==> tokens[t] == old(tokens)[t]
      ensures Sum(tokens, LiveOf()) + revoked == Sum(old(tokens), LiveOf())
    {
      hide Sum;
      ghost var before := tokens;
      revoked := 0;
      for i := 0 to |tokens|
        invariant |tokens| == |before| && forall t :: i <= t < |before| ==> tokens[t] == before[t]
        invariant forall t :: 0 <= t < i ==> tokens[t] == Revoke(before, which)[t]
        invariant Sum(tokens, LiveOf()) + revoked == Sum(before, LiveOf())
      {
        if Hits(which, tokens[i]) && !tokens[i].revoked {
          SumUpdate(tokens, i, tokens[i].(revoked := true), LiveOf());
          tokens := tokens[i := tokens[i].(revoked := true)];
          revoked := revoked + 1;
        }
      }
    }

    method RefreshToken(t: nat, account: Account, now: int, ttl: nat) returns (answer: Answer)
      requires Inv(tokens)
      modifies this
      ensures (tokens, answer) == Refresh(old(tokens), t, account, now, ttl)
      ensures Inv(tokens)
    {
      RefreshKeepsInv(tokens, t, account, now, ttl);
      var snapshot := tokens;
      answer := Refused;
      var row := Consume(t, now);
      if row.None? {
        if t < |tokens| && tokens[t].revoked {
          var _ := RevokeWhere(OfFamily(tokens[t].family));
        }
      } else if !account.userActive {
        var _ := RevokeWhere(OfFamily(row.value.family));
      } else if !account.memberActive {
        tokens := snapshot;
      } else {
        answer := Issued(|tokens|);
        tokens := Create(tokens, row.value.user, now + ttl, Some(row.value.family), Some(t));
      }
    }

    /** Revokes the family of the presented token; an unknown token is ignored. */
    method SignOutToken(t: nat)
      requires Inv(tokens)
      modifies this
      ensures tokens == Step(old(tokens), SignOut(t)) && Inv(tokens)
      ensures t < |old(tokens)| ==> Emptied(tokens, old(tokens)[t].family)
    {
      StepKeepsInv(tokens, SignOut(t));
      if t < |tokens| {
        assert Linked(tokens, t);
        var _ := RevokeWhere(OfFamily(tokens[t].family));
      }
    }

    /** Revokes every token the user has. */
    method SignOutEverywhere(user: Id)
      requires Inv(tokens)
      modifies this
      ensures tokens == Step(old(tokens), SignOutAll(user)) && Inv(tokens)
      ensures forall t :: 0 <= t < |tokens| && tokens[t].user == user ==> tokens[t].revoked
    {
      StepKeepsInv(tokens, SignOutAll(user));
      var _ := RevokeWhere(OfUser(user));
    }

    method ReplacePassword(user: Id, passwordOk: bool, memberActive: bool, now: int, ttl: nat)
      requires Inv(tokens)
      modifies this
      ensures tokens == ChangePassword(old(tokens), user, passwordOk, memberActive, now, ttl)
      ensures Inv(tokens)
    {
      if passwordOk && memberActive {
        RevokeKeepsInv(tokens, OfUser(user));
        var _ := RevokeWhere(OfUser(user));
        NewRootKeepsInv(tokens, user, now + ttl);
        tokens := Create(tokens, user, now + ttl, None, None);
      }
    }
  }
}
