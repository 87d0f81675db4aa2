/** Runs of the second factor's handlers that reach the states in which its promises fail, from the first day on. */
module TwoFactorRuns {
  import opened Common
  import opened Tickets
  import opened TwoFactor
  import Totp

  /** Setting up and enabling with the window before the current one. */
  lemma FactorOn(s: State) returns (actions: seq<Action>)
    requires Init(s)
    ensures Run(s, actions)
         == s.(row := Row(Some(s.nextSecret), true, Totp.Step(s.clock) - 1), nextSecret := s.nextSecret + 1,
               handlers := [Finished, DroppingCodes(RECOVERY_COUNT)],
               spends := [Spend(Window(s.nextSecret, Totp.Step(s.clock) - 1), None)])
  {
    hide Run, Do, Totp.Step;
    var step := Totp.Step(s.clock) - 1;
    actions := [StartSetup, SetupWrite(0), StartEnable(step), EnableWrite(1)];
    RunOfFour(s, StartSetup, SetupWrite(0), StartEnable(step), EnableWrite(1));
    SecretMade(s);
    var s2 := Do(Do(s, StartSetup), SetupWrite(0));
    Confirmed(s2, step);
    assert s2.handlers == [Finished];
  }

  lemma SecretMade(s: State)
    requires !s.row.enabled && s.handlers == []
    ensures Do(Do(s, StartSetup), SetupWrite(0))
         == s.(handlers := [Finished], row := Row(Some(s.nextSecret), false, s.row.last), nextSecret := s.nextSecret + 1)
  {
    assert Do(s, StartSetup) == s.(handlers := [SettingUp]);
  }

  lemma Confirmed(s: State, step: int)
    requires s.row.secret.Some? && !s.row.enabled && Near(s.clock, step) && s.handlers == [Finished]
    ensures Do(Do(s, StartEnable(step)), EnableWrite(1))
         == s.(handlers := [Finished, DroppingCodes(RECOVERY_COUNT)], row := Row(s.row.secret, true, step),
               spends := s.spends + [Spend(Window(s.row.secret.value, step), None)])
  {
    hide Near;
    assert Do(s, StartEnable(step)) == s.(handlers := [Finished, Enabling(s.row.secret.value, step)]);
  }

  lemma Issued(s: State, id: string)
    requires id !in s.issued
    ensures var s' := Do(s, IssueTicket(id, s.me));
            && s' == s.(tickets := s'.tickets, issued := s'.issued) && s'.issued.Keys == s.issued.Keys + {id}
            && id in s'.tickets && s'.tickets[id] == Ticket(s.me, s.clock + TICKET_TTL, 0)
            && forall k | k in s.tickets && s.clock <= s.tickets[k].expires && k != id ::
                 k in s'.tickets && s'.tickets[k] == s.tickets[k]
  {}

  predicate Usable(s: State, id: string) {
    id in s.tickets && s.tickets[id].user == s.me && s.clock <= s.tickets[id].expires && s.tickets[id].attempts < 2
  }

  lemma Claimed(s: State, id: string)
    requires Usable(s, id)
    ensures var s' := Do(s, ClaimTicket(id));
            && s' == s.(tickets := s'.tickets, attempts := s'.attempts, handlers := s.handlers + [Presenting(Some(id))])
            && (s.tickets[id].attempts == 0 ==> Usable(s', id)) && forall k | k != id && Usable(s, k) :: Usable(s', k)
  {}

  lemma CodeChecked(s: State, h: nat, step: int)
    requires Enabled(s, CheckCode(h, step))
    ensures var s' := Do(s, CheckCode(h, step));
            s' == s.(checks := s'.checks, handlers := s.handlers[h := Checked(s.handlers[h].ticket, s.row.secret.value, step)])
  {}

  /** Two attempts, of one ticket or of two, that have both looked at a code. */
  lemma UnderWay(s: State, a: string, b: string, x: int, y: int)
    requires Usable(s, a) && Usable(s, b) && s.tickets[a].attempts == 0 && |s.handlers| == 2
    requires s.row.secret.Some? && s.row.enabled && Near(s.clock, x) && Near(s.clock, y)
    ensures var s' := Do(Do(Do(Do(s, ClaimTicket(a)), ClaimTicket(b)), CheckCode(2, x)), CheckCode(3, y));
            && s'.handlers
               == s.handlers + [Checked(Some(a), s.row.secret.value, x), Checked(Some(b), s.row.secret.value, y)]
            && s'.row == s.row && s'.spends == s.spends
  {
    hide Do, Near;
    var s1 := Do(s, ClaimTicket(a));
    Claimed(s, a);
    var s2 := Do(s1, ClaimTicket(b));
    Claimed(s1, b);
    hide Usable;
    var s3 := Do(s2, CheckCode(2, x));
    CodeChecked(s2, 2, x);
    CodeChecked(s3, 3, y);
  }

  predicate Claimable(s: State, id: string, n: nat) {
    id in s.tickets && s.tickets[id].user == s.me && s.clock <= s.tickets[id].expires && s.tickets[id].attempts + n <= TICKET_ATTEMPTS
  }

  /** The handlers from `h` on, `n` of them, were admitted by the ticket and have a code to present. */
  predicate Admitted(s: State, id: string, h: nat, n: nat) {
    h + n <= |s.handlers| && forall k :: h <= k < h + n ==> s.handlers[k] == Presenting(Some(id))
  }

  lemma OneClaim(s: State, id: string, n: nat)
    requires Claimable(s, id, n) && n > 0
    ensures var s' := Do(s, ClaimTicket(id));
            && s' == s.(tickets := s'.tickets, attempts := s'.attempts, handlers := s.handlers + [Presenting(Some(id))])
            && Claimable(s', id, n - 1)
  {}

  lemma {:induction false} ManyClaims(s: State, id: string, h: nat, k: nat, n: nat) returns (actions: seq<Action>)
    requires Claimable(s, id, n) && Admitted(s, id, h, k) && h + k == |s.handlers|
    ensures var s' := Run(s, actions);
            && Admitted(s', id, h, k + n) && s'.row == s.row && s'.spends == s.spends && s'.clock == s.clock
    decreases n
  {
    hide Run, Do;
    actions := [];
    EmptyRun(s);
    if n > 0 {
      var s' := Do(s, ClaimTicket(id));
      OneClaim(s, id, n);
      assert Admitted(s', id, h, k + 1);
      var rest := ManyClaims(s', id, h, k + 1, n - 1);
      RunCons(s, ClaimTicket(id), rest);
      actions := [ClaimTicket(id)] + rest;
    }
  }

  /** The row lets the current window pass. */
  predicate Open(s: State) {
    s.row.enabled && s.row.secret.Some? && s.row.last < Totp.Step(s.clock)
  }

  /** A look, the write, and two windows later. */
  lemma OneToken(s: State, id: string, h: nat, n: nat)
    requires Open(s) && Admitted(s, id, h, n) && n > 0
    ensures var s' := Do(Do(Do(s, CheckCode(h, Totp.Step(s.clock))), Consume(h, false)), Tick(s.clock + 60));
            && Open(s') && Admitted(s', id, h + 1, n - 1)
            && s'.spends == s.spends + [Spend(Window(s.row.secret.value, Totp.Step(s.clock)), Some(id))]
  {
    var now := Totp.Step(s.clock);
    var s1 := Do(s, CheckCode(h, now));
    CodeChecked(s, h, now);
    assert Totp.Step(s.clock + 60) > now;
    hide Totp.Step;
    var s2 := Do(s1, Consume(h, false));
    assert s2.row == s.row.(last := now) && s2.clock == s.clock;
  }

  lemma {:induction false} ManyTokens(s: State, id: string, h: nat, n: nat) returns (actions: seq<Action>)
    requires Open(s) && Admitted(s, id, h, n)
    ensures TokensOf(Run(s, actions).spends, id) == TokensOf(s.spends, id) + n
    decreases n
  {
    hide Run, Do, TokensOf, Totp.Step, Admitted;
    actions := [];
    EmptyRun(s);
    if n > 0 {
      var look, write, wait := CheckCode(h, Totp.Step(s.clock)), Consume(h, false), Tick(s.clock + 60);
      OneToken(s, id, h, n);
      TokensSnoc(s.spends, Spend(Window(s.row.secret.value, Totp.Step(s.clock)), Some(id)), id);
      var rest := ManyTokens(Do(Do(Do(s, look), write), wait), id, h + 1, n - 1);
      RunCons(Do(Do(s, look), write), wait, rest);
      RunCons(Do(s, look), write, [wait] + rest);
      RunCons(s, look, [write] + ([wait] + rest));
      actions := [look] + ([write] + ([wait] + rest));
    }
  }

  /** From the first day on: a ticket whose attempts are all admitted before one of them ends buys a token with each. */
  lemma TokensReachable(s: State, id: string, n: nat) returns (actions: seq<Action>)
    requires Init(s) && n <= TICKET_ATTEMPTS
    ensures TokensOf(Run(s, actions).spends, id) == n
  {
    var on := FactorOn(s);
    var s0 := Run(s, on);
    NothingIssued(s);
    hide Run, Do, Init;
    var s1 := Do(s0, IssueTicket(id, s.me));
    Issued(s0, id);
    assert Open(s1) && TokensOf(s1.spends, id) == 0;
    hide Totp.Step, Open, TokensOf;
    assert Claimable(s1, id, n);
    var claims := ManyClaims(s1, id, 2, 0, n);
    SameOpen(s1, Run(s1, claims));
    var buys := ManyTokens(Run(s1, claims), id, 2, n);
    RunCons(s0, IssueTicket(id, s.me), claims + buys);
    RunConcat(s1, claims, buys);
    RunConcat(s, on, [IssueTicket(id, s.me)] + (claims + buys));
    actions := on + ([IssueTicket(id, s.me)] + (claims + buys));
  }

  lemma SameOpen(s: State, s': State)
    requires s'.row == s.row && s'.clock == s.clock
    ensures Open(s') <==> Open(s)
  {}

  lemma EmptyRun(s: State)
    ensures Run(s, []) == s
  {}

  lemma RunCons(s: State, a: Action, rest: seq<Action>)
    ensures Run(s, [a] + rest) == Run(Do(s, a), rest)
  {
    RunConcat(s, [a], rest);
    assert [a][..0] == [];
  }

  lemma NothingIssued(s: State)
    requires Init(s)
    ensures s.issued == map[]
  {}

  lemma Joined(s: State, a: seq<Action>, b: seq<Action>, c: seq<Action>) returns (all: seq<Action>)
    ensures Run(s, all) == Run(Run(Run(s, a), b), c)
  {
    RunConcat(s, a, b);
    RunConcat(s, a + b, c);
    all := a + b + c;
  }

  lemma RunSnoc(s: State, actions: seq<Action>, a: Action)
    ensures Run(s, actions + [a]) == Do(Run(s, actions), a)
  {
    assert (actions + [a])[..|actions|] == actions;
  }

  lemma {:induction false} RunConcat(s: State, a: seq<Action>, b: seq<Action>)
    ensures Run(s, a + b) == Run(Run(s, a), b)
  {
    if b == [] {
      assert a + b == a;
    } else {
      assert (a + b)[..|a + b| - 1] == a + b[..|b| - 1];
      RunConcat(s, a, b[..|b| - 1]);
    }
  }

  /** Two tickets, one code looked at under both, and an administrator's reset between the two writes. */
  lemma ReopenedWindowReachable(s: State, a: string, b: string) returns (actions: seq<Action>, window: Spent)
    requires Init(s) && a != b && Totp.Step(s.clock) > 0
    ensures var spends := Run(s, actions).spends;
            window.Window? && |spends| == 3 && spends[1] == Spend(window, Some(a)) && spends[2] == Spend(window, Some(b))
  {
    var on := FactorOn(s);
    var now := Totp.Step(s.clock);
    var s0 := Run(s, on);
    hide Run, Do, Totp.Step, Enabled;
    var s1 := Do(s0, IssueTicket(a, s.me));
    Issued(s0, a);
    var s2 := Do(s1, IssueTicket(b, s.me));
    Issued(s1, b);
    UnderWay(s2, a, b, now, now);
    RunOfSix(s0, IssueTicket(a, s.me), IssueTicket(b, s.me), ClaimTicket(a), ClaimTicket(b), CheckCode(2, now), CheckCode(3, now));
    var rest := [IssueTicket(a, s.me), IssueTicket(b, s.me), ClaimTicket(a), ClaimTicket(b), CheckCode(2, now), CheckCode(3, now)];
    var s6 := Run(s0, rest);
    ResetReopensAWindow(s6, 2, 3, a, b);
    window := Window(s.nextSecret, now);
    actions := Joined(s, on, rest, [Consume(2, false), StartAdminReset, ResetWrite(4), Consume(3, false)]);
  }

  lemma RunOfFive(s: State, a: Action, b: Action, c: Action, d: Action, e: Action)
    ensures Run(s, [a, b, c, d, e]) == Do(Do(Do(Do(Do(s, a), b), c), d), e)
  {
    hide Do;
    RunOfFour(s, a, b, c, d);
    RunSnoc(s, [a, b, c, d], e);
    hide Run;
    assert [a, b, c, d] + [e] == [a, b, c, d, e];
  }

  lemma RunOfSix(s: State, a: Action, b: Action, c: Action, d: Action, e: Action, f: Action)
    ensures Run(s, [a, b, c, d, e, f]) == Do(Do(Do(Do(Do(Do(s, a), b), c), d), e), f)
  {
    hide Do;
    RunOfFive(s, a, b, c, d, e);
    RunSnoc(s, [a, b, c, d, e], f);
    hide Run;
    assert [a, b, c, d, e] + [f] == [a, b, c, d, e, f];
  }

  /** Two enabling requests at once, the older code written last: the accepted windows go down. */
  lemma LowerWindowReachable(s: State) returns (actions: seq<Action>)
    requires Init(s)
    ensures !Increasing(Run(s, actions).spends)
  {
    hide Run, Do, Totp.Step;
    var now := Totp.Step(s.clock);
    actions := [StartSetup, SetupWrite(0), StartEnable(now), StartEnable(now - 1), EnableWrite(1), EnableWrite(2)];
    RunOfSix(s, StartSetup, SetupWrite(0), StartEnable(now), StartEnable(now - 1), EnableWrite(1), EnableWrite(2));
    SecretMade(s);
    TwoEnables(Do(Do(s, StartSetup), SetupWrite(0)), now);
  }

  lemma TwoEnables(s: State, now: int)
    requires s.row.secret.Some? && !s.row.enabled && Near(s.clock, now) && Near(s.clock, now - 1)
    requires s.handlers == [Finished] && s.spends == []
    ensures !Increasing(Do(Do(Do(Do(s, StartEnable(now)), StartEnable(now - 1)), EnableWrite(1)), EnableWrite(2)).spends)
  {
    hide Near;
    var secret := s.row.secret.value;
    var s1 := Do(s, StartEnable(now));
    assert s1 == s.(handlers := [Finished, Enabling(secret, now)]);
    var s2 := Do(s1, StartEnable(now - 1));
    assert s2 == s.(handlers := [Finished, Enabling(secret, now), Enabling(secret, now - 1)]);
    var s3 := Do(s2, EnableWrite(1));
    assert s3.handlers[2] == Enabling(secret, now - 1) && s3.spends == [Spend(Window(secret, now), None)];
    var s4 := Do(s3, EnableWrite(2));
    assert s4.spends == [Spend(Window(secret, now), None), Spend(Window(secret, now - 1), None)];
    assert SameSecret(s4.spends[0].what, s4.spends[1].what);
  }

  // ── Recovery codes ──────────────────────────────────────────────────────

  /** The numbers of `n` codes that nobody has used. */
  function Unused(from: nat, n: nat): map<nat, bool> {
    if n == 0 then map[] else Unused(from, n - 1)[from + n - 1 := false]
  }

  lemma {:induction false} UnusedAre(from: nat, n: nat)
    ensures forall c: nat :: c in Unused(from, n) <==> from <= c < from + n
    ensures forall c | c in Unused(from, n) :: !Unused(from, n)[c]
  {
    if n > 0 {
      UnusedAre(from, n - 1);
    }
  }

  lemma {:induction false} CodesAreMade(s: State, h: nat, first: nat, made: nat, n: nat) returns (actions: seq<Action>)
    requires h < |s.handlers| && s.handlers[h] == IssuingCodes(n) && s.codes == Unused(first, made) && s.nextCode == first + made
    ensures Run(s, actions)
         == s.(handlers := s.handlers[h := IssuingCodes(0)], codes := Unused(first, made + n), nextCode := first + made + n)
    decreases n
  {
    hide Run, Do;
    actions := [];
    EmptyRun(s);
    if n == 0 {
      assert s.handlers[h := IssuingCodes(0)] == s.handlers;
    } else {
      OneCodeIsMade(s, h, first, made, n);
      var s' := Do(s, IssueCode(h));
      var rest := CodesAreMade(s', h, first, made + 1, n - 1);
      RunCons(s, IssueCode(h), rest);
      actions := [IssueCode(h)] + rest;
      assert s.handlers[h := IssuingCodes(n - 1)][h := IssuingCodes(0)] == s.handlers[h := IssuingCodes(0)];
    }
  }

  lemma OneCodeIsMade(s: State, h: nat, first: nat, made: nat, n: nat)
    requires h < |s.handlers| && s.handlers[h] == IssuingCodes(n) && s.codes == Unused(first, made) && s.nextCode == first + made
    requires n > 0
    ensures Do(s, IssueCode(h))
         == s.(handlers := s.handlers[h := IssuingCodes(n - 1)], codes := Unused(first, made + 1), nextCode := first + made + 1)
  {
    assert s.codes[first + made := false] == Unused(first, made + 1);
  }

  /** The factor is on and there are ten recovery codes, none of them used. */
  lemma CodesReachable(s: State) returns (actions: seq<Action>)
    requires Init(s)
    ensures var s' := Run(s, actions);
            && s'.row.enabled && s'.row.secret == Some(s.nextSecret) && s'.codes == Unused(s.nextCode, 10)
            && s'.handlers == [Finished, IssuingCodes(0)] && s'.issued == map[] && s'.tickets == map[] && s'.clock == s.clock
            && s'.me == s.me && TokensOf(s'.spends, "") == 0 && |s'.spends| == 1 && s'.spends[0].token.None?
  {
    var on := FactorOn(s);
    var s1 := Run(s, on);
    DropsCodes(s1);
    hide Run, Do;
    var s2 := Do(s1, DropCodes(1));
    var rest := CodesAreMade(s2, 1, s.nextCode, 0, 10);
    RunCons(s1, DropCodes(1), rest);
    RunConcat(s, on, [DropCodes(1)] + rest);
    actions := on + ([DropCodes(1)] + rest);
  }

  lemma DropsCodes(s: State)
    requires s.handlers == [Finished, DroppingCodes(10)]
    ensures Do(s, DropCodes(1)) == s.(handlers := [Finished, IssuingCodes(10)], codes := map[])
    ensures Unused(s.nextCode, 0) == map[]
  {}

  /** From the first day on: each of the ten codes signs its owner in. */
  lemma RecoveryReachable(s: State, id: string, c: nat) returns (actions: seq<Action>)
    requires Init(s) && s.nextCode <= c < s.nextCode + 10
    ensures var s' := Run(s, actions); TokensOf(s'.spends, id) == 1 && id !in s'.tickets && c in s'.codes && s'.codes[c]
  {
    var first := CodesReachable(s);
    var s0 := Run(s, first);
    hide Run, Do, TokensOf;
    NoTokenYet(s0, id);
    var s1 := Do(s0, IssueTicket(id, s.me));
    Issued(s0, id);
    Claimed(s1, id);
    var s2 := Do(s1, ClaimTicket(id));
    UnusedAre(s.nextCode, 10);
    hide Unused;
    Recovers(s2, 2, id, c);
    var rest := [RefuseCode(2), Recover(2, c, false)];
    RunConcat(s, first, [IssueTicket(id, s.me)] + ([ClaimTicket(id)] + rest));
    RunCons(s0, IssueTicket(id, s.me), [ClaimTicket(id)] + rest);
    RunCons(s1, ClaimTicket(id), rest);
    TwoMore(s2, RefuseCode(2), Recover(2, c, false));
    TokensSnoc(s2.spends, Spend(Code(c), Some(id)), id);
    actions := first + ([IssueTicket(id, s.me)] + ([ClaimTicket(id)] + rest));
  }

  lemma NoTokenYet(s: State, id: string)
    requires |s.spends| == 1 && s.spends[0].token.None?
    ensures TokensOf(s.spends, id) == 0
  {
    TokensSnoc([], s.spends[0], id);
    assert s.spends == [] + [s.spends[0]];
  }

  lemma Recovers(s: State, h: nat, id: string, c: nat)
    requires h < |s.handlers| && s.handlers[h] == Presenting(Some(id)) && c in s.codes && !s.codes[c]
    ensures var s' := Do(Do(s, RefuseCode(h)), Recover(h, c, false));
            && s'.spends == s.spends + [Spend(Code(c), Some(id))] && id !in s'.tickets && s'.codes == s.codes[c := true]
  {}

  lemma TwoMore(s: State, a: Action, b: Action)
    ensures Run(s, [a, b]) == Do(Do(s, a), b)
  {
    hide Do;
    RunSnoc(s, [], a);
    RunSnoc(s, [a], b);
    assert [] + [a] == [a] && [a] + [b] == [a, b];
    EmptyRun(s);
  }

  /** From the first day on: the factor is turned on and, with the code of the current window, off again. */
  lemma TurnedOffReachable(s: State) returns (actions: seq<Action>)
    requires Init(s)
    ensures var s' := Run(s, actions); s'.row == Row(None, false, 0) && s'.codes == map[] && |s'.spends| == 2
  {
    var on := FactorOn(s);
    var now := Totp.Step(s.clock);
    var s0 := Run(s, on);
    hide Run, Do, Totp.Step;
    TurnsOff(s0, now);
    RunOfFive(s0, StartDisable, CheckCode(2, now), Consume(2, false), ResetWrite(2), DropCodes(2));
    var rest := [StartDisable, CheckCode(2, now), Consume(2, false), ResetWrite(2), DropCodes(2)];
    RunConcat(s, on, rest);
    actions := on + rest;
  }

  lemma TurnsOff(s: State, now: int)
    requires |s.handlers| == 2 && s.row.enabled && s.row.secret.Some? && s.row.last < now && Near(s.clock, now)
    ensures var s' := Do(Do(Do(Do(Do(s, StartDisable), CheckCode(2, now)), Consume(2, false)), ResetWrite(2)), DropCodes(2));
            s'.row == Row(None, false, 0) && s'.codes == map[] && |s'.spends| == |s.spends| + 1
  {
    hide Near;
    var s1 := Do(s, StartDisable);
    assert s1.handlers[2] == Presenting(None);
    var s2 := Do(s1, CheckCode(2, now));
    CodeChecked(s1, 2, now);
    AcceptedToTurnOff(s2, 2);
    Resets(Do(s2, Consume(2, false)), 2);
  }

  lemma AcceptedToTurnOff(s: State, h: nat)
    requires h < |s.handlers| && s.handlers[h].Checked? && s.handlers[h].ticket.None? && s.row.last < s.handlers[h].step
    ensures var s' := Do(s, Consume(h, false));
            h < |s'.handlers| && s'.handlers[h] == Resetting && |s'.spends| == |s.spends| + 1
  {}

  lemma Resets(s: State, h: nat)
    requires h < |s.handlers| && s.handlers[h] == Resetting
    ensures var s' := Do(Do(s, ResetWrite(h)), DropCodes(h)); s'.row == Row(None, false, 0) && s'.codes == map[] && s'.spends == s.spends
  {}
}
