/**
 * The second factor at sign-in (server/twofa.go): tickets, and the handlers of one account interleaved between
 * their database statements.
 */
module TwoFactor {
  import opened Common
  import opened Tickets
  import Totp

  const RECOVERY_COUNT := 10

  // ── The account ─────────────────────────────────────────────────────────

  /** Secrets and recovery codes are numbered in the order they are made. */
  datatype Row = Row(secret: Option<nat>, enabled: bool, last: int)

  datatype Spent = Window(secret: nat, step: int) | Code(c: nat)

  /** Something accepted, and the ticket whose token it bought, if any. */
  datatype Spend = Spend(what: Spent, token: Option<string>)

  /**
   * A handler between two statements. Signing in has a ticket, turning the factor off has none; both present a code
   * once, read the row (Checked) and write it, and try the same input as a recovery code when that fails.
   */
  datatype Handler =
    | Presenting(ticket: Option<string>)
    | Checked(ticket: Option<string>, secret: nat, step: int)
    | Recovering(ticket: Option<string>)
    | Enabling(secret: nat, step: int)
    | SettingUp
    | Resetting
    | DroppingCodes(then_: nat)
    | IssuingCodes(left: nat)
    | Finished

  /** `issued`, `attempts` and `checks` remember every ticket, every attempt it paid for, and every code looked at. */
  datatype State = State(
    me: string, clock: int,
    tickets: Tickets, issued: map<string, int>, attempts: seq<Attempt>, checks: seq<string>,
    row: Row, nextSecret: nat, codes: map<nat, bool>, nextCode: nat,
    handlers: seq<Handler>, spends: seq<Spend>)

  datatype Action =
    | Tick(now: int)
    | IssueTicket(id: string, user: string)
    | ClaimTicket(id: string)
    | StartDisable
    | CheckCode(h: nat, step: int)
    | RefuseCode(h: nat)
    | Consume(h: nat, blocked: bool)
    | Recover(h: nat, c: nat, blocked: bool)
    | RecoverFails(h: nat)
    | StartEnable(step: int)
    | EnableWrite(h: nat)
    | StartSetup
    | SetupWrite(h: nat)
    | StartAdminReset
    | ResetWrite(h: nat)
    | DropCodes(h: nat)
    | IssueCode(h: nat)

  /** Some code of this window is accepted now. */
  predicate Near(now: int, step: int) {
    Totp.Step(now) - Totp.SKEW <= step <= Totp.Step(now) + Totp.SKEW
  }

  predicate Enabled(s: State, a: Action) {
    match a
    case Tick(now) => now >= s.clock
    case IssueTicket(id, _) => id !in s.issued
    case ClaimTicket(_) => true
    case StartDisable => true
    case CheckCode(h, step) =>
      h < |s.handlers| && s.handlers[h].Presenting? && s.row.secret.Some? && s.row.enabled && Near(s.clock, step)
    case RefuseCode(h) => h < |s.handlers| && s.handlers[h].Presenting?
    case Consume(h, _) => h < |s.handlers| && s.handlers[h].Checked?
    case Recover(h, c, _) => h < |s.handlers| && s.handlers[h].Recovering? && c in s.codes && !s.codes[c]
    case RecoverFails(h) => h < |s.handlers| && s.handlers[h].Recovering?
    case StartEnable(step) => s.row.secret.Some? && !s.row.enabled && Near(s.clock, step)
    case EnableWrite(h) => h < |s.handlers| && s.handlers[h].Enabling?
    case StartSetup => !s.row.enabled
    case SetupWrite(h) => h < |s.handlers| && s.handlers[h].SettingUp?
    case StartAdminReset => true
    case ResetWrite(h) => h < |s.handlers| && s.handlers[h].Resetting?
    case DropCodes(h) => h < |s.handlers| && s.handlers[h].DroppingCodes?
    case IssueCode(h) => h < |s.handlers| && s.handlers[h].IssuingCodes? && s.handlers[h].left > 0
  }

  function Start(s: State, handler: Handler): State {
    s.(handlers := s.handlers + [handler])
  }

  function Goto(s: State, h: nat, handler: Handler): State
    requires h < |s.handlers|
  {
    s.(handlers := s.handlers[h := handler])
  }

  /** The factor was presented: a sign-in drops its ticket and gets a token unless blocked, turning off goes on. */
  function Succeed(s: State, h: nat, ticket: Option<string>, what: Spent, blocked: bool): State
    requires h < |s.handlers|
  {
    match ticket
    case Some(id) =>
      Goto(s, h, Finished).(tickets := s.tickets - {id}, spends := s.spends + [Spend(what, if blocked then None else Some(id))])
    case None => Goto(s, h, Resetting).(spends := s.spends + [Spend(what, None)])
  }

  /** One look at the code of a handler that presents one. */
  function Look(s: State, h: nat, handler: Handler): State
    requires h < |s.handlers| && s.handlers[h].Presenting?
  {
    Goto(s, h, handler).(checks := s.checks + if s.handlers[h].ticket.Some? then [s.handlers[h].ticket.value] else [])
  }

  function ClaimStep(s: State, id: string): State {
    var claim := Claim(s.tickets, id, s.clock);
    var s1 := s.(tickets := claim.0);
    if claim.1.None? then s1
    else
      var s2 := s1.(attempts := s.attempts + [Attempt(id, s.clock)]);
      if claim.1.value == s.me then Start(s2, Presenting(Some(id))) else s2
  }

  function Next(s: State, a: Action): State
    requires Enabled(s, a)
  {
    match a
    case Tick(now) => s.(clock := now)
    case IssueTicket(id, user) =>
      s.(tickets := Issue(s.tickets, id, user, s.clock), issued := s.issued[id := s.clock + TICKET_TTL])
    case ClaimTicket(id) => ClaimStep(s, id)
    case StartDisable => Start(s, Presenting(None))
    case CheckCode(h, step) => Look(s, h, Checked(s.handlers[h].ticket, s.row.secret.value, step))
    case RefuseCode(h) => Look(s, h, Recovering(s.handlers[h].ticket))
    case Consume(h, blocked) =>
      var c := s.handlers[h];
      if s.row.last < c.step then
        Succeed(s.(row := s.row.(last := c.step)), h, c.ticket, Window(c.secret, c.step), blocked)
      else Goto(s, h, Recovering(c.ticket))
    case Recover(h, c, blocked) => Succeed(s.(codes := s.codes[c := true]), h, s.handlers[h].ticket, Code(c), blocked)
    case RecoverFails(h) => Goto(s, h, Finished)
    case StartEnable(step) => Start(s, Enabling(s.row.secret.value, step))
    case EnableWrite(h) =>
      var e := s.handlers[h];
      Goto(s, h, DroppingCodes(RECOVERY_COUNT))
        .(row := s.row.(enabled := true, last := e.step), spends := s.spends + [Spend(Window(e.secret, e.step), None)])
    case StartSetup => Start(s, SettingUp)
    case SetupWrite(h) =>
      Goto(s, h, Finished).(row := s.row.(secret := Some(s.nextSecret), enabled := false), nextSecret := s.nextSecret + 1)
    case StartAdminReset => Start(s, Resetting)
    case ResetWrite(h) => Goto(s, h, DroppingCodes(0)).(row := Row(None, false, 0))
    case DropCodes(h) => Goto(s, h, IssuingCodes(s.handlers[h].then_)).(codes := map[])
    case IssueCode(h) =>
      Goto(s, h, IssuingCodes(s.handlers[h].left - 1)).(codes := s.codes[s.nextCode := false], nextCode := s.nextCode + 1)
  }

  /** A run: steps that are not enabled do nothing. */
  function Run(s: State, actions: seq<Action>): State {
    if actions == [] then s else Do(Run(s, actions[..|actions| - 1]), actions[|actions| - 1])
  }

  function Do(s: State, a: Action): State {
    if Enabled(s, a) then Next(s, a) else s
  }

  ghost predicate Init(s: State) {
    && s.tickets == map[] && s.issued == map[] && s.attempts == [] && s.checks == [] && s.codes == map[]
    && !s.row.enabled && s.row.secret.None? && s.handlers == [] && s.spends == []
  }

  // ── Tickets over whole runs ─────────────────────────────────────────────

  lemma {:induction false} NextKeepsTickets(s: State, a: Action)
    requires TicketsOk(s.tickets, s.issued, s.attempts) && Enabled(s, a)
    ensures TicketsOk(Next(s, a).tickets, Next(s, a).issued, Next(s, a).attempts)
  {
    hide TicketsOk, Claim, Issue, Near;
    match a
    case ClaimTicket(id) => ClaimKeepsTickets(s.tickets, s.issued, s.attempts, id, s.clock);
    case IssueTicket(id, user) => IssueKeepsTickets(s.tickets, s.issued, s.attempts, id, user, s.clock);
    case _ => FewerTickets(s.tickets, Next(s, a).tickets, s.issued, s.attempts);
  }

  /** Looks at codes that a ticket paid for. */
  function ChecksOf(checks: seq<string>, id: string): nat {
    if checks == [] then 0 else ChecksOf(checks[..|checks| - 1], id) + if checks[|checks| - 1] == id then 1 else 0
  }

  function HandlersThat(handlers: seq<Handler>, p: Handler -> bool): nat {
    if handlers == [] then 0
    else HandlersThat(handlers[..|handlers| - 1], p) + if p(handlers[|handlers| - 1]) then 1 else 0
  }

  /** Has paid an attempt of the ticket and not yet looked at the code. */
  function Paid(id: string): Handler -> bool {
    (h: Handler) => h == Presenting(Some(id))
  }

  /** Has looked, and may still succeed. */
  function Looked(id: string): Handler -> bool {
    (h: Handler) => (h.Checked? || h.Recovering?) && h.ticket == Some(id)
  }

  function Unspent(handlers: seq<Handler>, id: string): nat {
    HandlersThat(handlers, Paid(id))
  }

  lemma CountStart(handlers: seq<Handler>, h: Handler, p: Handler -> bool)
    ensures HandlersThat(handlers + [h], p) == HandlersThat(handlers, p) + if p(h) then 1 else 0
  {
    assert (handlers + [h])[..|handlers|] == handlers;
  }

  lemma {:induction false} CountGoto(handlers: seq<Handler>, h: nat, next: Handler, p: Handler -> bool)
    requires h < |handlers|
    ensures HandlersThat(handlers[h := next], p)
         == HandlersThat(handlers, p) - (if p(handlers[h]) then 1 else 0) + if p(next) then 1 else 0
  {
    var last := |handlers| - 1;
    var after := handlers[h := next];
    if h == last {
      assert after[..last] == handlers[..last];
    } else {
      assert after[..last] == handlers[..last][h := next];
      CountGoto(handlers[..last], h, next, p);
    }
  }

  ghost predicate ChecksOk(s: State) {
    forall id :: ChecksOf(s.checks, id) + Unspent(s.handlers, id) <= AttemptsOf(s.attempts, id)
  }

  lemma StartKeepsChecks(s: State, s': State, handler: Handler)
    requires ChecksOk(s) && s'.handlers == s.handlers + [handler] && s'.checks == s.checks
    requires if handler.Presenting? && handler.ticket.Some? then s'.attempts == s.attempts + [Attempt(handler.ticket.value, s.clock)]
             else s'.attempts == s.attempts
    ensures ChecksOk(s')
  {
    hide ChecksOf, HandlersThat, AttemptsOf;
    forall id
      ensures ChecksOf(s'.checks, id) + Unspent(s'.handlers, id) <= AttemptsOf(s'.attempts, id)
    {
      CountStart(s.handlers, handler, Paid(id));
      if handler.Presenting? && handler.ticket.Some? {
        AttemptsSnoc(s.attempts, Attempt(handler.ticket.value, s.clock), id);
      }
    }
  }

  lemma LookKeepsChecks(s: State, h: nat, next: Handler)
    requires ChecksOk(s) && h < |s.handlers| && s.handlers[h].Presenting? && !next.Presenting?
    ensures ChecksOk(Look(s, h, next))
  {
    hide HandlersThat, AttemptsOf;
    var s' := Look(s, h, next);
    forall id
      ensures ChecksOf(s'.checks, id) + Unspent(s'.handlers, id) <= AttemptsOf(s'.attempts, id)
    {
      CountGoto(s.handlers, h, next, Paid(id));
      if s.handlers[h].ticket.Some? {
        assert s'.checks[..|s.checks|] == s.checks;
      } else {
        assert s'.checks == s.checks;
      }
    }
  }

  lemma GotoKeepsChecks(s: State, s': State, h: nat)
    requires ChecksOk(s) && h < |s.handlers| && |s'.handlers| == |s.handlers| && !s'.handlers[h].Presenting?
    requires s'.handlers == s.handlers[h := s'.handlers[h]] && s'.checks == s.checks && s'.attempts == s.attempts
    ensures ChecksOk(s')
  {
    hide ChecksOf, HandlersThat, AttemptsOf;
    forall id
      ensures Unspent(s'.handlers, id) <= Unspent(s.handlers, id)
    {
      CountGoto(s.handlers, h, s'.handlers[h], Paid(id));
    }
  }

  lemma ClaimKeepsChecks(s: State, id: string)
    requires ChecksOk(s)
    ensures ChecksOk(ClaimStep(s, id))
  {
    hide ChecksOf, HandlersThat, AttemptsOf, Claim;
    var s' := ClaimStep(s, id);
    if s'.handlers != s.handlers {
      StartKeepsChecks(s, s', Presenting(Some(id)));
    } else if s'.attempts != s.attempts {
      forall x
        ensures AttemptsOf(s.attempts, x) <= AttemptsOf(s'.attempts, x)
      {
        AttemptsSnoc(s.attempts, Attempt(id, s.clock), x);
      }
    }
  }

  lemma SuccessKeepsChecks(s: State, a: Action)
    requires ChecksOk(s) && Enabled(s, a) && (a.Consume? || a.Recover?)
    ensures ChecksOk(Next(s, a))
  {
    hide ChecksOk;
    GotoKeepsChecks(s, Next(s, a), a.h);
  }

  lemma NextKeepsChecks(s: State, a: Action)
    requires ChecksOk(s) && Enabled(s, a)
    ensures ChecksOk(Next(s, a))
  {
    hide ChecksOk, ClaimStep, Look, Issue, Near, Succeed;
    var s' := Next(s, a);
    match a
    case Tick(_) => ChecksSame(s, s');
    case IssueTicket(_, _) => ChecksSame(s, s');
    case ClaimTicket(id) => ClaimKeepsChecks(s, id);
    case CheckCode(h, step) => LookKeepsChecks(s, h, Checked(s.handlers[h].ticket, s.row.secret.value, step));
    case RefuseCode(h) => LookKeepsChecks(s, h, Recovering(s.handlers[h].ticket));
    case StartDisable => StartKeepsChecks(s, s', Presenting(None));
    case StartEnable(step) => StartKeepsChecks(s, s', Enabling(s.row.secret.value, step));
    case StartSetup => StartKeepsChecks(s, s', SettingUp);
    case StartAdminReset => StartKeepsChecks(s, s', Resetting);
    case Consume(_, _) => SuccessKeepsChecks(s, a);
    case Recover(_, _, _) => SuccessKeepsChecks(s, a);
    case _ => GotoKeepsChecks(s, s', a.h);
  }

  lemma ChecksSame(s: State, s': State)
    requires ChecksOk(s) && s'.handlers == s.handlers && s'.checks == s.checks && s'.attempts == s.attempts
    ensures ChecksOk(s')
  {}

  /** Whoever races whom: a ticket pays for at most five looks at a code, and for no attempt once it has expired. */
  lemma {:induction false} TicketsAreFinite(s: State, actions: seq<Action>)
    requires Init(s)
    ensures TicketsOk(Run(s, actions).tickets, Run(s, actions).issued, Run(s, actions).attempts) && ChecksOk(Run(s, actions))
    ensures forall id :: ChecksOf(Run(s, actions).checks, id) <= TICKET_ATTEMPTS
    ensures forall a | a in Run(s, actions).attempts :: a.ticket in Run(s, actions).issued && a.at <= Run(s, actions).issued[a.ticket]
  {
    hide Next, Enabled, ChecksOf, AttemptsOf, HandlersThat, TicketsOk;
    if actions == [] {
      NothingChecked(s);
    } else {
      var init, a := actions[..|actions| - 1], actions[|actions| - 1];
      TicketsAreFinite(s, init);
      if Enabled(Run(s, init), a) {
        NextKeepsTickets(Run(s, init), a);
        NextKeepsChecks(Run(s, init), a);
      }
    }
    TicketsBound(Run(s, actions));
    forall id
      ensures ChecksOf(Run(s, actions).checks, id) <= TICKET_ATTEMPTS
    {
      assert ChecksOf(Run(s, actions).checks, id) <= AttemptsOf(Run(s, actions).attempts, id);
    }
  }

  lemma TicketsBound(s: State)
    requires TicketsOk(s.tickets, s.issued, s.attempts)
    ensures forall id :: AttemptsOf(s.attempts, id) <= TICKET_ATTEMPTS
    ensures forall a | a in s.attempts :: a.ticket in s.issued && a.at <= s.issued[a.ticket]
  {}

  lemma NothingChecked(s: State)
    requires Init(s)
    ensures TicketsOk(s.tickets, s.issued, s.attempts) && ChecksOk(s)
  {}

  lemma GoneStaysGone(s: State, a: Action, id: string)
    requires Enabled(s, a) && id in s.issued && id !in s.tickets
    ensures id in Next(s, a).issued && id !in Next(s, a).tickets
    ensures AttemptsOf(Next(s, a).attempts, id) == AttemptsOf(s.attempts, id)
  {
    hide AttemptsOf, Near;
    match a
    case ClaimTicket(other) => AttemptsSnoc(s.attempts, Attempt(other, s.clock), id);
    case _ =>
  }

  /**
   * A ticket that bought a token is dropped, and from then on admits nobody: a second token can only come from an
   * attempt that was already under way.
   */
  lemma {:induction false} DroppedTicketAdmitsNobody(s: State, id: string, actions: seq<Action>)
    requires id in s.issued && id !in s.tickets
    ensures id in Run(s, actions).issued && id !in Run(s, actions).tickets
    ensures AttemptsOf(Run(s, actions).attempts, id) == AttemptsOf(s.attempts, id)
  {
    hide Next, Enabled, AttemptsOf;
    if actions != [] {
      var init, a := actions[..|actions| - 1], actions[|actions| - 1];
      DroppedTicketAdmitsNobody(s, id, init);
      if Enabled(Run(s, init), a) {
        GoneStaysGone(Run(s, init), a, id);
      }
    }
  }

  // ── Tokens of one ticket ────────────────────────────────────────────────

  function TokensOf(spends: seq<Spend>, id: string): nat {
    if spends == [] then 0 else TokensOf(spends[..|spends| - 1], id) + if spends[|spends| - 1].token == Some(id) then 1 else 0
  }

  /** Attempts of the ticket that are under way. */
  function Unfinished(s: State, id: string): nat {
    HandlersThat(s.handlers, Paid(id)) + HandlersThat(s.handlers, Looked(id))
  }

  lemma TokensSnoc(spends: seq<Spend>, x: Spend, id: string)
    ensures TokensOf(spends + [x], id) == TokensOf(spends, id) + if x.token == Some(id) then 1 else 0
  {
    assert (spends + [x])[..|spends|] == spends;
  }

  /** What a step may do to the accounts of a ticket: looks are paid for, tokens are bought by a look. */
  ghost predicate Accounted(s: State, s': State, id: string) {
    var looked, looked' := HandlersThat(s.handlers, Looked(id)), HandlersThat(s'.handlers, Looked(id));
    && TokensOf(s.spends, id) <= TokensOf(s'.spends, id)
    && TokensOf(s'.spends, id) + looked' + ChecksOf(s.checks, id) <= TokensOf(s.spends, id) + looked + ChecksOf(s'.checks, id)
    && (TokensOf(s'.spends, id) > TokensOf(s.spends, id) ==> id !in s'.tickets && looked > 0)
  }

  ghost predicate NoNewAttempt(s: State, s': State, id: string) {
    TokensOf(s'.spends, id) + Unfinished(s', id) <= TokensOf(s.spends, id) + Unfinished(s, id)
  }

  lemma StartAccounts(s: State, s': State, handler: Handler, id: string)
    requires s'.handlers == s.handlers + [handler] && s'.spends == s.spends && s'.checks == s.checks
    requires !Looked(id)(handler)
    ensures Accounted(s, s', id) && (!Paid(id)(handler) ==> NoNewAttempt(s, s', id))
    ensures Unfinished(s', id) <= Unfinished(s, id) + 1
  {
    hide HandlersThat, TokensOf, ChecksOf;
    CountStart(s.handlers, handler, Looked(id));
    CountStart(s.handlers, handler, Paid(id));
  }

  lemma GotoAccounts(s: State, s': State, h: nat, id: string)
    requires h < |s.handlers| && |s'.handlers| == |s.handlers| && s'.handlers == s.handlers[h := s'.handlers[h]]
    requires s'.spends == s.spends && s'.checks == s.checks && !s'.handlers[h].Presenting?
    requires Looked(id)(s'.handlers[h]) ==> Looked(id)(s.handlers[h])
    ensures Accounted(s, s', id) && NoNewAttempt(s, s', id)
  {
    hide HandlersThat, TokensOf, ChecksOf;
    CountGoto(s.handlers, h, s'.handlers[h], Looked(id));
    CountGoto(s.handlers, h, s'.handlers[h], Paid(id));
  }

  lemma LookAccounts(s: State, h: nat, next: Handler, id: string)
    requires h < |s.handlers| && s.handlers[h].Presenting? && (next.Checked? || next.Recovering?)
    requires next.ticket == s.handlers[h].ticket
    ensures Accounted(s, Look(s, h, next), id) && NoNewAttempt(s, Look(s, h, next), id)
  {
    hide HandlersThat, TokensOf;
    CountGoto(s.handlers, h, next, Looked(id));
    CountGoto(s.handlers, h, next, Paid(id));
    var s' := Look(s, h, next);
    if s.handlers[h].ticket.Some? {
      assert s'.checks[..|s.checks|] == s.checks;
    } else {
      assert s'.checks == s.checks;
    }
  }

  lemma SucceedAccounts(s: State, h: nat, what: Spent, blocked: bool, id: string)
    requires h < |s.handlers| && (s.handlers[h].Checked? || s.handlers[h].Recovering?)
    ensures var s' := Succeed(s, h, s.handlers[h].ticket, what, blocked);
            Accounted(s, s', id) && NoNewAttempt(s, s', id)
  {
    hide HandlersThat, TokensOf, ChecksOf;
    var s' := Succeed(s, h, s.handlers[h].ticket, what, blocked);
    CountGoto(s.handlers, h, s'.handlers[h], Looked(id));
    CountGoto(s.handlers, h, s'.handlers[h], Paid(id));
    TokensSnoc(s.spends, s'.spends[|s.spends|], id);
    assert s'.spends == s.spends + [s'.spends[|s.spends|]];
  }

  lemma SpendAccounts(s: State, s': State, h: nat, id: string)
    requires h < |s.handlers| && s.handlers[h].Enabling? && |s'.handlers| == |s.handlers| && s'.handlers[h].DroppingCodes?
    requires s'.handlers == s.handlers[h := s'.handlers[h]] && s'.checks == s.checks
    requires |s'.spends| == |s.spends| + 1 && s'.spends == s.spends + [s'.spends[|s.spends|]] && s'.spends[|s.spends|].token == None
    ensures Accounted(s, s', id) && NoNewAttempt(s, s', id)
  {
    hide HandlersThat, TokensOf, ChecksOf;
    CountGoto(s.handlers, h, s'.handlers[h], Looked(id));
    CountGoto(s.handlers, h, s'.handlers[h], Paid(id));
    TokensSnoc(s.spends, s'.spends[|s.spends|], id);
  }

  lemma ClaimAccounts(s: State, claimed: string, id: string)
    ensures var s' := ClaimStep(s, claimed);
            && Accounted(s, s', id) && TokensOf(s'.spends, id) == TokensOf(s.spends, id)
            && Unfinished(s', id) <= Unfinished(s, id) + 1
            && (claimed != id || id !in s.tickets ==> NoNewAttempt(s, s', id))
  {
    hide HandlersThat, TokensOf, ChecksOf, Accounted, NoNewAttempt, Unfinished;
    var s' := ClaimStep(s, claimed);
    if s'.handlers != s.handlers {
      StartAccounts(s, s', Presenting(Some(claimed)), id);
    } else {
      NothingAccounts(s, s', id);
    }
  }

  lemma ConsumeAccounts(s: State, h: nat, blocked: bool, id: string)
    requires Enabled(s, Consume(h, blocked))
    ensures Accounted(s, Next(s, Consume(h, blocked)), id) && NoNewAttempt(s, Next(s, Consume(h, blocked)), id)
  {
    hide HandlersThat, TokensOf, ChecksOf;
    var c := s.handlers[h];
    if s.row.last < c.step {
      SucceedAccounts(s.(row := s.row.(last := c.step)), h, Window(c.secret, c.step), blocked, id);
    } else {
      GotoAccounts(s, Next(s, Consume(h, blocked)), h, id);
    }
  }

  lemma NextAccounts(s: State, a: Action, id: string)
    requires Enabled(s, a)
    ensures Accounted(s, Next(s, a), id)
    ensures a != ClaimTicket(id) ==> NoNewAttempt(s, Next(s, a), id)
  {
    hide Accounted, NoNewAttempt, ClaimStep, Look, Issue, Near, Succeed;
    var s' := Next(s, a);
    match a
    case Tick(_) => NothingAccounts(s, s', id);
    case IssueTicket(_, _) => NothingAccounts(s, s', id);
    case ClaimTicket(claimed) => ClaimAccounts(s, claimed, id);
    case CheckCode(h, step) => LookAccounts(s, h, Checked(s.handlers[h].ticket, s.row.secret.value, step), id);
    case RefuseCode(h) => LookAccounts(s, h, Recovering(s.handlers[h].ticket), id);
    case Consume(h, blocked) => ConsumeAccounts(s, h, blocked, id);
    case Recover(h, c, blocked) =>
      SucceedAccounts(s.(codes := s.codes[c := true]), h, Code(c), blocked, id);
      SameAccounts(s, s.(codes := s.codes[c := true]), s', id);
    case StartDisable => StartAccounts(s, s', Presenting(None), id);
    case StartEnable(step) => StartAccounts(s, s', Enabling(s.row.secret.value, step), id);
    case StartSetup => StartAccounts(s, s', SettingUp, id);
    case StartAdminReset => StartAccounts(s, s', Resetting, id);
    case EnableWrite(h) => SpendAccounts(s, s', h, id);
    case _ => GotoAccounts(s, s', a.h, id);
  }

  lemma NothingAccounts(s: State, s': State, id: string)
    requires s'.handlers == s.handlers && s'.spends == s.spends && s'.checks == s.checks
    ensures Accounted(s, s', id) && NoNewAttempt(s, s', id) && Unfinished(s', id) == Unfinished(s, id)
  {}

  lemma SameAccounts(s: State, t: State, s': State, id: string)
    requires t.handlers == s.handlers && t.spends == s.spends && t.checks == s.checks
    requires Accounted(t, s', id) && NoNewAttempt(t, s', id)
    ensures Accounted(s, s', id) && NoNewAttempt(s, s', id)
  {}

  ghost predicate TokensOk(s: State, id: string) {
    TokensOf(s.spends, id) + HandlersThat(s.handlers, Looked(id)) <= ChecksOf(s.checks, id)
  }

  /** Over every run a ticket buys no more tokens than it paid looks for, hence at most five. */
  lemma {:induction false} TokensArePaidFor(s: State, actions: seq<Action>, id: string)
    requires Init(s)
    ensures TokensOk(Run(s, actions), id)
    ensures TokensOf(Run(s, actions).spends, id) <= ChecksOf(Run(s, actions).checks, id) <= TICKET_ATTEMPTS
  {
    hide Next, Enabled, ChecksOf, HandlersThat, TokensOf, TicketsOk;
    TicketsAreFinite(s, actions);
    if actions == [] {
      NothingBought(s, id);
    } else {
      var init, a := actions[..|actions| - 1], actions[|actions| - 1];
      TokensArePaidFor(s, init, id);
      if Enabled(Run(s, init), a) {
        NextAccounts(Run(s, init), a, id);
      }
    }
  }

  lemma NothingBought(s: State, id: string)
    requires Init(s)
    ensures TokensOf(s.spends, id) == 0 && Unfinished(s, id) == 0 && ChecksOf(s.checks, id) == 0
  {}

  /** A claim on the ticket finds no earlier attempt of it still under way. */
  predicate Serial(s: State, a: Action, id: string) {
    a == ClaimTicket(id) ==> Unfinished(s, id) == 0
  }

  predicate SerialRun(s: State, actions: seq<Action>, id: string) {
    actions != [] ==>
      SerialRun(s, actions[..|actions| - 1], id) && Serial(Run(s, actions[..|actions| - 1]), actions[|actions| - 1], id)
  }

  ghost predicate BoughtOnce(s: State, id: string) {
    TokensOf(s.spends, id) + Unfinished(s, id) <= 1 && (TokensOf(s.spends, id) > 0 ==> id !in s.tickets)
  }

  lemma NextBuysOnce(s: State, a: Action, id: string)
    requires BoughtOnce(s, id) && TokensOk(s, id) && ChecksOk(s) && TicketsOk(s.tickets, s.issued, s.attempts)
    requires Enabled(s, a) && Serial(s, a, id)
    ensures BoughtOnce(Next(s, a), id)
  {
    hide Next, TokensOf, HandlersThat, ChecksOf, AttemptsOf;
    NextAccounts(s, a, id);
    if a == ClaimTicket(id) {
      ClaimAccounts(s, id, id);
      assert Next(s, a) == ClaimStep(s, id) by {
        NextIsClaim(s, id);
      }
    }
    if TokensOf(s.spends, id) > 0 {
      assert ChecksOf(s.checks, id) + Unspent(s.handlers, id) <= AttemptsOf(s.attempts, id);
      GoneStaysGone(s, a, id);
    }
  }

  lemma NextIsClaim(s: State, id: string)
    ensures Next(s, ClaimTicket(id)) == ClaimStep(s, id)
  {}

  /** A ticket whose attempts do not overlap buys at most one token, whatever else interleaves. */
  lemma {:induction false} SerialTicketBuysOneToken(s: State, actions: seq<Action>, id: string)
    requires Init(s) && SerialRun(s, actions, id)
    ensures BoughtOnce(Run(s, actions), id) && TokensOf(Run(s, actions).spends, id) <= 1
  {
    hide Next, Enabled, Serial, TokensOf, Unfinished;
    if actions == [] {
      NothingBought(s, id);
    } else {
      var init, a := actions[..|actions| - 1], actions[|actions| - 1];
      SerialTicketBuysOneToken(s, init, id);
      TicketsAreFinite(s, init);
      TokensArePaidFor(s, init, id);
      if Enabled(Run(s, init), a) {
        NextBuysOnce(Run(s, init), a, id);
      }
    }
  }

  /** Once a ticket is dropped, further tokens can only come from the attempts that were under way, one from each. */
  lemma {:induction false} AfterTheDrop(s: State, id: string, actions: seq<Action>)
    requires id in s.issued && id !in s.tickets
    ensures TokensOf(Run(s, actions).spends, id) + Unfinished(Run(s, actions), id) <= TokensOf(s.spends, id) + Unfinished(s, id)
  {
    hide Next, Enabled, TokensOf, HandlersThat;
    if actions != [] {
      var init, a := actions[..|actions| - 1], actions[|actions| - 1];
      AfterTheDrop(s, id, init);
      DroppedTicketAdmitsNobody(s, id, init);
      var before := Run(s, init);
      if Enabled(before, a) {
        NextAccounts(before, a, id);
        if a == ClaimTicket(id) {
          ClaimAccounts(before, id, id);
          NextIsClaim(before, id);
        }
      }
    }
  }

  // ── Recovery codes over whole runs ──────────────────────────────────────

  ghost predicate CodesOk(s: State) {
    && (forall c | c in s.codes :: c < s.nextCode)
    && (forall i :: 0 <= i < |s.spends| && s.spends[i].what.Code? ==> CodeIsSpent(s, s.spends[i].what.c))
    && (forall i, j :: 0 <= i < j < |s.spends| && s.spends[i].what.Code? ==> s.spends[i].what != s.spends[j].what)
  }

  ghost predicate CodeIsSpent(s: State, c: nat) {
    c < s.nextCode && (c in s.codes ==> s.codes[c])
  }

  lemma RecoverKeepsCodes(s: State, h: nat, c: nat, blocked: bool)
    requires CodesOk(s) && Enabled(s, Recover(h, c, blocked))
    ensures CodesOk(Next(s, Recover(h, c, blocked)))
  {}

  /** Codes are forgotten or made afresh, never made unused again. */
  lemma CodesMoveOn(s: State, s': State)
    requires CodesOk(s) && s.nextCode <= s'.nextCode
    requires forall c | c in s'.codes :: (c in s.codes && s'.codes[c] == s.codes[c]) || s.nextCode <= c < s'.nextCode
    requires s'.spends == s.spends || exists x: Spend :: x.what.Window? && s'.spends == s.spends + [x]
    ensures CodesOk(s')
  {}

  lemma ConsumeMovesCodesOn(s: State, h: nat, blocked: bool)
    requires CodesOk(s) && Enabled(s, Consume(h, blocked))
    ensures CodesOk(Next(s, Consume(h, blocked)))
  {
    hide CodesOk;
    var s', n := Next(s, Consume(h, blocked)), |s.spends|;
    assert s'.spends == s.spends || s'.spends == s.spends + [s'.spends[n]];
    CodesMoveOn(s, s');
  }

  lemma EnableMovesCodesOn(s: State, h: nat)
    requires CodesOk(s) && Enabled(s, EnableWrite(h))
    ensures CodesOk(Next(s, EnableWrite(h)))
  {
    hide CodesOk;
    var s' := Next(s, EnableWrite(h));
    assert s'.spends == s.spends + [s'.spends[|s.spends|]];
    CodesMoveOn(s, s');
  }

  lemma {:induction false} NextKeepsCodes(s: State, a: Action)
    requires CodesOk(s) && Enabled(s, a)
    ensures CodesOk(Next(s, a))
  {
    hide CodesOk, Claim, Issue, Near, Succeed, Look;
    match a
    case Recover(h, c, blocked) => RecoverKeepsCodes(s, h, c, blocked);
    case Consume(h, blocked) => ConsumeMovesCodesOn(s, h, blocked);
    case EnableWrite(h) => EnableMovesCodesOn(s, h);
    case DropCodes(h) => CodesMoveOn(s, Next(s, a));
    case IssueCode(h) => CodesMoveOn(s, Next(s, a));
    case CheckCode(_, _) => LookLeavesCodes(s, a);
    case RefuseCode(_) => LookLeavesCodes(s, a);
    case _ => CodesUntouched(s, Next(s, a));
  }

  lemma LookLeavesCodes(s: State, a: Action)
    requires CodesOk(s) && Enabled(s, a) && (a.CheckCode? || a.RefuseCode?)
    ensures CodesOk(Next(s, a))
  {
    hide CodesOk;
    CodesUntouched(s, Next(s, a));
  }

  lemma CodesUntouched(s: State, s': State)
    requires CodesOk(s) && s'.codes == s.codes && s'.nextCode == s.nextCode && s'.spends == s.spends
    ensures CodesOk(s')
  {}

  /** A recovery code is accepted at most once, whatever else happens. */
  lemma {:induction false} CodesAreSingleUse(s: State, actions: seq<Action>)
    requires Init(s)
    ensures CodesOk(Run(s, actions))
    ensures var spends := Run(s, actions).spends;
            forall i, j :: 0 <= i < j < |spends| && spends[i].what.Code? ==> spends[i].what != spends[j].what
  {
    hide Next, Enabled;
    if actions != [] {
      var init, a := actions[..|actions| - 1], actions[|actions| - 1];
      CodesAreSingleUse(s, init);
      if Enabled(Run(s, init), a) {
        NextKeepsCodes(Run(s, init), a);
      }
    }
  }

  // ── Windows over whole runs ─────────────────────────────────────────────

  /** Within one secret the accepted windows strictly increase, enabling included. */
  ghost predicate Increasing(spends: seq<Spend>) {
    forall i, j :: 0 <= i < j < |spends| && SameSecret(spends[i].what, spends[j].what) ==> spends[i].what.step < spends[j].what.step
  }

  predicate SameSecret(a: Spent, b: Spent) {
    a.Window? && b.Window? && a.secret == b.secret
  }

  /** Every window accepted under the secret lies below the step. */
  ghost predicate Below(spends: seq<Spend>, secret: nat, step: int) {
    forall x | x in spends && x.what.Window? && x.what.secret == secret :: x.what.step < step
  }

  predicate SecretIsOld(s: State, h: Handler) {
    match h
    case Checked(_, secret, _) => secret < s.nextSecret && (s.row.secret == Some(secret) ==> s.row.enabled)
    case Enabling(secret, _) => secret < s.nextSecret
    case _ => true
  }

  /** While the factor is on no accepted window of the row's secret is newer than the row says; while off there is none. */
  ghost predicate RowCovers(s: State) {
    s.row.secret.Some? ==>
      if s.row.enabled then Below(s.spends, s.row.secret.value, s.row.last + 1)
      else forall x | x in s.spends && x.what.Window? :: x.what.secret != s.row.secret.value
  }

  ghost predicate WindowsFit(s: State) {
    && Increasing(s.spends) && RowCovers(s)
    && (s.row.secret.Some? ==> s.row.secret.value < s.nextSecret)
    && (forall x | x in s.spends && x.what.Window? :: x.what.secret < s.nextSecret)
    && (forall h | h in s.handlers :: SecretIsOld(s, h))
  }

  /** What the row remembers while the factor is on is a window of its own secret. */
  ghost predicate LastWasAccepted(s: State) {
    s.row.enabled ==> s.row.secret.Some? && exists x | x in s.spends :: x.what == Window(s.row.secret.value, s.row.last)
  }

  ghost predicate WindowsOk(s: State) {
    WindowsFit(s) && LastWasAccepted(s)
  }

  /** The factor is still off, or the window is newer than the last one it accepted. */
  predicate Newer(row: Row, step: int) {
    !row.enabled || row.last < step
  }

  /** The writes find the secret they read: what WHERE totp_secret = ... AND (NOT totp_enabled OR totp_last_step < ...) would check. */
  predicate Orderly(s: State, a: Action) {
    match a
    case Consume(h, _) =>
      h < |s.handlers| && s.handlers[h].Checked? && s.row.last < s.handlers[h].step ==> s.row.secret == Some(s.handlers[h].secret)
    case EnableWrite(h) =>
      h < |s.handlers| && s.handlers[h].Enabling? ==> s.row.secret == Some(s.handlers[h].secret) && Newer(s.row, s.handlers[h].step)
    case _ => true
  }

  /**
   * The writes that do no harm, whatever they find: no accepted window of their secret reaches the one they accept, and
   * enabling leaves the row no window behind of the secret it then holds.
   */
  ghost predicate Harmless(s: State, a: Action) {
    match a
    case Consume(h, _) =>
      h < |s.handlers| && s.handlers[h].Checked? && s.row.last < s.handlers[h].step ==>
        Below(s.spends, s.handlers[h].secret, s.handlers[h].step)
    case EnableWrite(h) =>
      h < |s.handlers| && s.handlers[h].Enabling? ==>
        && Below(s.spends, s.handlers[h].secret, s.handlers[h].step)
        && (s.row.secret.Some? ==> Below(s.spends, s.row.secret.value, s.handlers[h].step + 1))
    case _ => true
  }

  lemma AppendIncreasing(spends: seq<Spend>, x: Spend)
    requires Increasing(spends)
    ensures Increasing(spends + [x]) <==> x.what.Code? || Below(spends, x.what.secret, x.what.step)
  {
    var more := spends + [x];
    if x.what.Window? && Increasing(more) {
      forall y | y in spends && y.what.Window? && y.what.secret == x.what.secret
        ensures y.what.step < x.what.step
      {
        var i :| 0 <= i < |spends| && spends[i] == y;
        assert more[i] == y && more[|spends|] == x;
      }
    }
  }

  lemma BelowSnoc(spends: seq<Spend>, x: Spend, secret: nat, step: int)
    ensures Below(spends + [x], secret, step)
       <==> Below(spends, secret, step) && (x.what.Window? && x.what.secret == secret ==> x.what.step < step)
  {
    assert forall y | y in spends :: y in spends + [x];
    assert x in spends + [x];
    assert forall y | y in spends + [x] :: y in spends || y == x;
  }

  /** A window is accepted and the row written: the rest of what fits goes on fitting. */
  lemma AcceptFitsExactlyIf(s: State, h: nat, next: Handler, row: Row, x: Spend)
    requires WindowsFit(s) && h < |s.handlers| && x.what.Window? && x.what.secret < s.nextSecret
    requires row.secret == s.row.secret && (s.row.enabled ==> row.enabled)
    requires next.Finished? || next.Resetting? || next.DroppingCodes?
    ensures var s' := s.(row := row, spends := s.spends + [x], handlers := s.handlers[h := next]);
            WindowsFit(s') <==> RowCovers(s') && Below(s.spends, x.what.secret, x.what.step)
  {
    hide Increasing, Below, RowCovers;
    AppendIncreasing(s.spends, x);
    var s' := s.(row := row, spends := s.spends + [x], handlers := s.handlers[h := next]);
    assert forall k | k in s'.handlers :: k in s.handlers || k == next;
    assert forall k | k in s.handlers :: SecretIsOld(s, k);
    assert forall k | k in s'.handlers :: SecretIsOld(s', k);
  }

  lemma WindowsFitIgnores(s: State, s': State)
    requires WindowsFit(s) && s'.row == s.row && s'.spends == s.spends && s'.nextSecret == s.nextSecret
    requires forall h | h in s'.handlers :: h in s.handlers || SecretIsOld(s', h)
    ensures WindowsFit(s')
  {
    hide Increasing, RowCovers;
    assert RowCovers(s') <==> RowCovers(s) by {
      SameRow(s, s');
    }
  }

  lemma SameRow(s: State, s': State)
    requires s'.row == s.row && s'.spends == s.spends
    ensures RowCovers(s') <==> RowCovers(s)
  {}

  /** A check that is accepted: the row covers what it holds, whichever secret the code was of. */
  lemma ConsumedRowCovers(s: State, h: nat, x: Spend)
    requires WindowsFit(s) && h < |s.handlers| && s.handlers[h].Checked? && s.row.last < s.handlers[h].step
    requires x.what == Window(s.handlers[h].secret, s.handlers[h].step)
    ensures RowCovers(s.(row := s.row.(last := s.handlers[h].step), spends := s.spends + [x]))
    ensures s.row.secret == Some(s.handlers[h].secret) ==> Below(s.spends, s.handlers[h].secret, s.handlers[h].step)
  {
    assert RowCovers(s) && SecretIsOld(s, s.handlers[h]);
    if s.row.secret.Some? {
      BelowSnoc(s.spends, x, s.row.secret.value, s.handlers[h].step + 1);
    }
  }

  lemma ConsumeFitsExactlyIf(s: State, h: nat, blocked: bool)
    requires WindowsFit(s) && Enabled(s, Consume(h, blocked))
    ensures WindowsFit(Next(s, Consume(h, blocked))) <==> Harmless(s, Consume(h, blocked))
  {
    hide Increasing, RowCovers, Below;
    var s' := Next(s, Consume(h, blocked));
    var c := s.handlers[h];
    assert c in s.handlers && SecretIsOld(s, c);
    if s.row.last < c.step {
      var x := s'.spends[|s.spends|];
      ConsumedRowCovers(s, h, x);
      AcceptFitsExactlyIf(s, h, s'.handlers[h], s'.row, x);
      var t := s.(row := s'.row, spends := s.spends + [x], handlers := s.handlers[h := s'.handlers[h]]);
      SameRow(s.(row := s.row.(last := c.step), spends := s.spends + [x]), t);
      SameWindows(t, s');
    } else {
      WindowsFitIgnores(s, s');
    }
  }

  lemma SameWindows(s: State, s': State)
    requires s'.row == s.row && s'.spends == s.spends && s'.nextSecret == s.nextSecret && s'.handlers == s.handlers
    ensures WindowsFit(s) <==> WindowsFit(s')
  {
    hide Increasing;
  }

  lemma EnableFitsExactlyIf(s: State, h: nat)
    requires WindowsFit(s) && Enabled(s, EnableWrite(h))
    ensures WindowsFit(Next(s, EnableWrite(h))) <==> Harmless(s, EnableWrite(h))
  {
    var e := s.handlers[h];
    var s' := Next(s, EnableWrite(h));
    var x := Spend(Window(e.secret, e.step), None);
    assert SecretIsOld(s, e);
    if s.row.secret.Some? {
      BelowSnoc(s.spends, x, s.row.secret.value, e.step + 1);
    }
    hide Increasing, Below;
    AcceptFitsExactlyIf(s, h, s'.handlers[h], s'.row, x);
    SameWindows(s.(row := s'.row, spends := s.spends + [x], handlers := s.handlers[h := s'.handlers[h]]), s');
  }

  lemma SetupKeepsWindows(s: State, h: nat)
    requires WindowsFit(s) && Enabled(s, SetupWrite(h))
    ensures WindowsFit(Next(s, SetupWrite(h)))
  {
    hide Increasing;
    var s' := Next(s, SetupWrite(h));
    assert forall k | k in s'.handlers :: k in s.handlers || k == s'.handlers[h];
    assert forall k | k in s.handlers :: SecretIsOld(s, k);
    assert forall k | k in s'.handlers :: SecretIsOld(s', k);
    assert RowCovers(s');
  }

  lemma ResetKeepsWindows(s: State, h: nat)
    requires WindowsFit(s) && Enabled(s, ResetWrite(h))
    ensures WindowsFit(Next(s, ResetWrite(h)))
  {
    hide Increasing;
    var s' := Next(s, ResetWrite(h));
    assert forall k | k in s'.handlers :: k in s.handlers || k == s'.handlers[h];
    assert forall k | k in s.handlers :: SecretIsOld(s, k);
    assert forall k | k in s'.handlers :: SecretIsOld(s', k);
    assert RowCovers(s');
  }

  lemma RecoverKeepsWindows(s: State, h: nat, c: nat, blocked: bool)
    requires WindowsFit(s) && Enabled(s, Recover(h, c, blocked))
    ensures WindowsFit(Next(s, Recover(h, c, blocked)))
  {
    hide Increasing;
    var s' := Next(s, Recover(h, c, blocked));
    var x := s'.spends[|s.spends|];
    assert s'.spends == s.spends + [x];
    AppendIncreasing(s.spends, x);
    assert forall k | k in s'.handlers :: k in s.handlers || k == s'.handlers[h];
    assert forall k | k in s.handlers :: SecretIsOld(s, k);
    assert forall k | k in s'.handlers :: SecretIsOld(s', k);
    assert RowCovers(s');
  }

  /** Exactly the harmless writes keep the windows in order and the row in charge of them. */
  lemma NextFitsExactlyIf(s: State, a: Action)
    requires WindowsFit(s) && Enabled(s, a)
    ensures WindowsFit(Next(s, a)) <==> Harmless(s, a)
  {
    match a
    case Consume(h, blocked) => ConsumeFitsExactlyIf(s, h, blocked);
    case Recover(h, c, blocked) => RecoverKeepsWindows(s, h, c, blocked);
    case EnableWrite(h) => EnableFitsExactlyIf(s, h);
    case SetupWrite(h) => SetupKeepsWindows(s, h);
    case ResetWrite(h) => ResetKeepsWindows(s, h);
    case _ => OthersKeepWindows(s, a);
  }

  lemma OthersKeepWindows(s: State, a: Action)
    requires WindowsFit(s) && Enabled(s, a)
    requires !a.Consume? && !a.Recover? && !a.EnableWrite? && !a.SetupWrite? && !a.ResetWrite?
    ensures WindowsFit(Next(s, a))
  {
    hide Increasing, RowCovers, Claim, Issue, Near;
    WindowsFitIgnores(s, Next(s, a));
  }

  /** A run without a harmful write. */
  ghost predicate HarmlessRun(s: State, actions: seq<Action>) {
    actions != [] ==>
      HarmlessRun(s, actions[..|actions| - 1]) && Harmless(Run(s, actions[..|actions| - 1]), actions[|actions| - 1])
  }

  /** At every point of the run the windows fit. */
  ghost predicate AlwaysFits(s: State, actions: seq<Action>) {
    WindowsFit(Run(s, actions)) && (actions != [] ==> AlwaysFits(s, actions[..|actions| - 1]))
  }

  /** A write that does not happen does no harm. */
  lemma DisabledIsHarmless(s: State, a: Action)
    requires !Enabled(s, a)
    ensures Harmless(s, a)
  {}

  /** Over whole runs the condition is exact. */
  lemma {:induction false} WindowsFitExactlyIf(s: State, actions: seq<Action>)
    requires Init(s)
    ensures AlwaysFits(s, actions) <==> HarmlessRun(s, actions)
  {
    hide Next, Enabled, Harmless, WindowsFit;
    if actions == [] {
      NothingSpent(s);
    } else {
      var init, a := actions[..|actions| - 1], actions[|actions| - 1];
      WindowsFitExactlyIf(s, init);
      FitsNow(s, init);
      if AlwaysFits(s, init) {
        if Enabled(Run(s, init), a) {
          NextFitsExactlyIf(Run(s, init), a);
        } else {
          DisabledIsHarmless(Run(s, init), a);
        }
      }
    }
  }

  lemma FitsNow(s: State, actions: seq<Action>)
    ensures AlwaysFits(s, actions) ==> WindowsFit(Run(s, actions))
  {}

  lemma NothingSpent(s: State)
    requires Init(s)
    ensures WindowsOk(s)
  {}

  /**
   * In a run without a harmful write the accepted windows of a secret strictly increase, and no two tokens were bought
   * with the same window or the same recovery code, however the statements of the handlers interleave.
   */
  lemma EveryTokenHasItsOwnSpend(s: State, actions: seq<Action>)
    requires Init(s) && HarmlessRun(s, actions)
    ensures Increasing(Run(s, actions).spends)
    ensures var spends := Run(s, actions).spends;
            forall i, j :: 0 <= i < j < |spends| && spends[i].token.Some? && spends[j].token.Some? ==> spends[i].what != spends[j].what
  {
    hide Run, HarmlessRun, Init;
    WindowsFitExactlyIf(s, actions);
    FitsNow(s, actions);
    CodesAreSingleUse(s, actions);
    var spends := Run(s, actions).spends;
    forall i, j | 0 <= i < j < |spends|
      ensures spends[i].what != spends[j].what
    {
      if SameSecret(spends[i].what, spends[j].what) {
        assert spends[i].what.step < spends[j].what.step;
      }
    }
  }

  /** A run in which no write finds its row changed under it. */
  predicate OrderlyRun(s: State, actions: seq<Action>) {
    actions != [] ==>
      OrderlyRun(s, actions[..|actions| - 1]) && Orderly(Run(s, actions[..|actions| - 1]), actions[|actions| - 1])
  }

  /** A write that finds the row as it was read does no harm. */
  lemma OrderlyIsHarmless(s: State, a: Action)
    requires WindowsFit(s) && Enabled(s, a) && Orderly(s, a)
    ensures Harmless(s, a)
  {
    hide Increasing;
    match a
    case Consume(h, _) =>
      if s.row.last < s.handlers[h].step {
        ConsumedRowCovers(s, h, Spend(Window(s.handlers[h].secret, s.handlers[h].step), None));
      }
    case EnableWrite(h) => assert RowCovers(s);
    case _ =>
  }

  lemma OrderlyKeepsLast(s: State, a: Action)
    requires WindowsFit(s) && LastWasAccepted(s) && Enabled(s, a) && Orderly(s, a)
    ensures LastWasAccepted(Next(s, a))
  {
    hide Increasing, RowCovers, Near, Claim, Issue;
    var s' := Next(s, a);
    if s'.row == s.row {
      assert forall x | x in s.spends :: x in s'.spends;
    } else if s'.row.enabled {
      assert a.Consume? ==> SecretIsOld(s, s.handlers[a.h]);
      assert s'.spends[|s.spends|] in s'.spends;
    }
  }

  /** So a run in which every write does has no harmful one, and the row always remembers the last window accepted. */
  lemma {:induction false} OrderlyRunIsHarmless(s: State, actions: seq<Action>)
    requires Init(s) && OrderlyRun(s, actions)
    ensures HarmlessRun(s, actions) && WindowsOk(Run(s, actions))
  {
    hide Next, Enabled, Orderly, Harmless, WindowsFit, LastWasAccepted;
    if actions == [] {
      NothingSpent(s);
    } else {
      var init, a := actions[..|actions| - 1], actions[|actions| - 1];
      OrderlyRunIsHarmless(s, init);
      if Enabled(Run(s, init), a) {
        OrderlyIsHarmless(Run(s, init), a);
        NextFitsExactlyIf(Run(s, init), a);
        OrderlyKeepsLast(Run(s, init), a);
      } else {
        DisabledIsHarmless(Run(s, init), a);
      }
    }
  }

  /** A handler that is not interrupted between reading and writing is orderly. */
  lemma UninterruptedIsOrderly(s: State, h: nat, step: int, blocked: bool)
    ensures Enabled(s, CheckCode(h, step)) ==> Orderly(Next(s, CheckCode(h, step)), Consume(h, blocked))
    ensures Enabled(s, StartEnable(step)) ==> Orderly(Next(s, StartEnable(step)), EnableWrite(|s.handlers|))
  {
    hide Near;
  }

  /**
   * The write after a check looks at the last window only, not at the secret. It keeps the windows of the secret it
   * read increasing exactly if none that was accepted reaches this one, which the row sees to while it holds that
   * secret. Otherwise a token is bought with a code of a secret no longer in force, and the row, whatever secret it
   * holds now, refuses every window up to that of the old one.
   */
  lemma ConsumingAReplacedSecret(s: State, h: nat, blocked: bool)
    requires WindowsFit(s) && Enabled(s, Consume(h, blocked)) && s.row.last < s.handlers[h].step
    ensures var c, s' := s.handlers[h], Next(s, Consume(h, blocked));
            && (Increasing(s'.spends) <==> Below(s.spends, c.secret, c.step))
            && (s.row.secret == Some(c.secret) ==> Below(s.spends, c.secret, c.step))
            && s'.row == s.row.(last := c.step)
            && s'.spends == s.spends + [Spend(Window(c.secret, c.step), if blocked then None else c.ticket)]
            && forall g: nat, b: bool | Enabled(s', Consume(g, b)) && s'.handlers[g].step <= c.step ::
                 Next(s', Consume(g, b)).spends == s'.spends
  {
    var c, s' := s.handlers[h], Next(s, Consume(h, blocked));
    var x := s'.spends[|s.spends|];
    AppendIncreasing(s.spends, x);
    ConsumedRowCovers(s, h, x);
  }

  /**
   * The write that enables is unconditional. While the row still holds the secret that was read, it keeps the
   * windows increasing exactly if the factor is still off or the window is newer than the last one.
   */
  lemma EnablingIncreasesExactlyIf(s: State, h: nat)
    requires WindowsOk(s) && Enabled(s, EnableWrite(h)) && s.row.secret == Some(s.handlers[h].secret)
    ensures Increasing(Next(s, EnableWrite(h)).spends) <==> Newer(s.row, s.handlers[h].step)
  {
    hide Increasing;
    var e := s.handlers[h];
    AppendIncreasing(s.spends, Spend(Window(e.secret, e.step), None));
    assert RowCovers(s) && LastWasAccepted(s);
  }

  /**
   * An enabling write that finds another secret, or none, turns the factor on for that one, although the code was of
   * the secret it read. If the factor was off, nobody has ever shown a code of the secret now in force; without a
   * secret no code is looked at any more and only recovery codes admit. The windows of the secret it read keep
   * increasing exactly if none that was accepted reaches this one.
   */
  lemma EnablingAReplacedSecret(s: State, h: nat)
    requires WindowsFit(s) && Enabled(s, EnableWrite(h)) && s.row.secret != Some(s.handlers[h].secret)
    ensures var s' := Next(s, EnableWrite(h));
            && s'.row.enabled && s'.row.secret == s.row.secret
            && (!s.row.enabled && s.row.secret.Some? ==>
                  forall x | x in s'.spends && x.what.Window? :: x.what.secret != s.row.secret.value)
            && (s.row.secret.None? ==> forall g, step :: !Enabled(s', CheckCode(g, step)))
            && (Increasing(s'.spends) <==> Below(s.spends, s.handlers[h].secret, s.handlers[h].step))
  {
    hide Increasing;
    var e := s.handlers[h];
    AppendIncreasing(s.spends, Spend(Window(e.secret, e.step), None));
    assert RowCovers(s);
  }

  /** A window checked before the row was reset is accepted once more after it: two tokens for one code. */
  lemma ResetReopensAWindow(s: State, h: nat, g: nat, a: string, b: string)
    requires h != g && h < |s.handlers| && g < |s.handlers|
    requires s.handlers[h].Checked? && s.handlers[g] == s.handlers[h].(ticket := Some(b)) && s.handlers[h].ticket == Some(a)
    requires s.row.last < s.handlers[h].step && 0 < s.handlers[h].step
    ensures var what := Window(s.handlers[h].secret, s.handlers[h].step);
            Run(s, [Consume(h, false), StartAdminReset, ResetWrite(|s.handlers|), Consume(g, false)]).spends
            == s.spends + [Spend(what, Some(a)), Spend(what, Some(b))]
  {
    RunOfFour(s, Consume(h, false), StartAdminReset, ResetWrite(|s.handlers|), Consume(g, false));
    hide Run, Do;
    var s1 := Do(s, Consume(h, false));
    Consumed(s, h);
    var s2 := Do(s1, StartAdminReset);
    var s3 := Do(s2, ResetWrite(|s.handlers|));
    ResetDone(s1);
    Consumed(s3, g);
  }

  lemma Consumed(s: State, h: nat)
    requires h < |s.handlers| && s.handlers[h].Checked? && s.handlers[h].ticket.Some? && s.row.last < s.handlers[h].step
    ensures var c, s' := s.handlers[h], Do(s, Consume(h, false));
            && s'.spends == s.spends + [Spend(Window(c.secret, c.step), c.ticket)]
            && s'.handlers == s.handlers[h := Finished] && s'.row.last == c.step && s'.tickets == s.tickets - {c.ticket.value}
  {}

  lemma ResetDone(s: State)
    ensures var s' := Do(Do(s, StartAdminReset), ResetWrite(|s.handlers|));
            s'.spends == s.spends && s'.row.last == 0 && s'.handlers == s.handlers + [DroppingCodes(0)]
  {}

  lemma RunOfFour(s: State, a: Action, b: Action, c: Action, d: Action)
    ensures Run(s, [a, b, c, d]) == Do(Do(Do(Do(s, a), b), c), d)
  {
    hide Do;
    assert [a, b, c, d][..3] == [a, b, c] && [a, b, c][..2] == [a, b] && [a, b][..1] == [a] && [a][..0] == [];
    assert Run(s, [a]) == Do(s, a);
    assert Run(s, [a, b]) == Do(Do(s, a), b);
    assert Run(s, [a, b, c]) == Do(Do(Do(s, a), b), c);
  }

  // ── Codes and the clock ─────────────────────────────────────────────────

  /** A code is looked at within the minute before and the half minute after its window begins. */
  lemma LooksAreNear(s: State, a: Action)
    requires Enabled(s, a) && (a.CheckCode? || a.StartEnable?) && s.clock >= 0
    ensures s.clock - 60 < 30 * a.step <= s.clock + 30
    ensures a.CheckCode? ==> s.row.enabled && s.row.secret.Some?
                             && Next(s, a).handlers[a.h] == Checked(s.handlers[a.h].ticket, s.row.secret.value, a.step)
    ensures a.StartEnable? ==> !s.row.enabled && s.row.secret.Some?
                               && Next(s, a).handlers == s.handlers + [Enabling(s.row.secret.value, a.step)]
  {
    Totp.StepIsWindow(s.clock);
  }

  /** The current window and its two neighbours are near, so a code of any of them gets its look. */
  lemma ThreeWindowsAreNear(s: State, h: nat, step: int)
    requires Totp.Step(s.clock) - 1 <= step <= Totp.Step(s.clock) + 1 && s.row.secret.Some?
    ensures s.row.enabled && h < |s.handlers| && s.handlers[h].Presenting? ==> Enabled(s, CheckCode(h, step))
    ensures !s.row.enabled ==> Enabled(s, StartEnable(step))
  {}

  /** No window that was looked at or accepted begins later than the next one. */
  ghost predicate NothingAhead(s: State) {
    && (forall h | h in s.handlers :: (h.Checked? ==> h.step <= Totp.Step(s.clock) + 1) && (h.Enabling? ==> h.step <= Totp.Step(s.clock) + 1))
    && forall x | x in s.spends && x.what.Window? :: x.what.step <= Totp.Step(s.clock) + 1
  }

  lemma NextKeepsNothingAhead(s: State, a: Action)
    requires NothingAhead(s) && Enabled(s, a)
    ensures NothingAhead(Next(s, a))
  {
    hide Next, Totp.Step;
    if a.Tick? {
      Totp.StepGrows(s.clock, a.now);
      Ticks(s, a.now);
    } else if a.CheckCode? || a.StartEnable? {
      LookIsNotAhead(s, a);
    } else if a.Consume? || a.EnableWrite? {
      AcceptIsNotAhead(s, a);
    } else {
      OthersAreNotAhead(s, a);
    }
  }

  lemma Ticks(s: State, now: int)
    requires Enabled(s, Tick(now))
    ensures Next(s, Tick(now)) == s.(clock := now)
  {}

  lemma OthersAreNotAhead(s: State, a: Action)
    requires NothingAhead(s) && Enabled(s, a)
    requires !a.Tick? && !a.CheckCode? && !a.StartEnable? && !a.Consume? && !a.EnableWrite?
    ensures NothingAhead(Next(s, a))
  {
    hide Claim, Issue, Totp.Step, Near;
  }

  lemma AcceptIsNotAhead(s: State, a: Action)
    requires NothingAhead(s) && Enabled(s, a) && (a.Consume? || a.EnableWrite?)
    ensures NothingAhead(Next(s, a))
  {
    hide Totp.Step;
    assert s.handlers[a.h] in s.handlers;
  }

  lemma LookIsNotAhead(s: State, a: Action)
    requires NothingAhead(s) && Enabled(s, a) && (a.CheckCode? || a.StartEnable?)
    ensures NothingAhead(Next(s, a))
  {
    hide Totp.Step;
    assert a.step <= Totp.Step(s.clock) + 1;
  }

  /** Whoever interleaves with whom, no code from the future is ever accepted. */
  lemma {:induction false} NothingFromTheFuture(s: State, actions: seq<Action>)
    requires Init(s)
    ensures NothingAhead(Run(s, actions))
    ensures forall x | x in Run(s, actions).spends && x.what.Window? && Run(s, actions).clock >= 0 ::
              30 * x.what.step <= Run(s, actions).clock + 30
  {
    hide Next, Enabled;
    if actions != [] {
      var init, a := actions[..|actions| - 1], actions[|actions| - 1];
      NothingFromTheFuture(s, init);
      if Enabled(Run(s, init), a) {
        NextKeepsNothingAhead(Run(s, init), a);
      }
    }
    hide Run;
    Totp.StepIsWindow(Run(s, actions).clock);
  }

  // ── Who gets a token ────────────────────────────────────────────────────

  /** What buys a token of the ticket: an accepted window or an unused recovery code, and an account that is not blocked. */
  predicate Buys(s: State, a: Action, id: string) {
    match a
    case Consume(h, blocked) =>
      h < |s.handlers| && s.handlers[h].Checked? && s.handlers[h].ticket == Some(id) && s.row.last < s.handlers[h].step && !blocked
    case Recover(h, c, blocked) =>
      h < |s.handlers| && s.handlers[h] == Recovering(Some(id)) && c in s.codes && !s.codes[c] && !blocked
    case _ => false
  }

  /** A token is given exactly for that, and its ticket is gone then; nothing else changes the account of tokens. */
  lemma TokenExactlyIf(s: State, a: Action, id: string)
    requires Enabled(s, a)
    ensures TokensOf(Next(s, a).spends, id) == TokensOf(s.spends, id) + if Buys(s, a, id) then 1 else 0
    ensures Buys(s, a, id) ==> id !in Next(s, a).tickets
  {
    hide TokensOf, Claim, Issue, Near;
    var s' := Next(s, a);
    if s'.spends != s.spends {
      TokensSnoc(s.spends, s'.spends[|s.spends|], id);
    }
  }

  /** A code of a window that is not newer than the last changes nothing, and is tried once more as a recovery code. */
  lemma UsedCodeIsNoCode(s: State, h: nat, blocked: bool)
    requires Enabled(s, Consume(h, blocked)) && s.handlers[h].step <= s.row.last
    ensures Next(s, Consume(h, blocked)) == s.(handlers := s.handlers[h := Recovering(s.handlers[h].ticket)])
  {}

  /** A ticket of somebody else is claimed for him: nobody presents a code here for it. */
  lemma OthersTicketsAdmitNobody(s: State, id: string)
    ensures id in s.tickets && s.tickets[id].user != s.me ==> Next(s, ClaimTicket(id)).handlers == s.handlers
    ensures id !in s.tickets || s.clock > s.tickets[id].expires ==> Next(s, ClaimTicket(id)).handlers == s.handlers
  {}

  /** What is no recovery code either ends the attempt, and nothing else. */
  lemma WrongCodeEndsTheAttempt(s: State, h: nat)
    requires h < |s.handlers| && s.handlers[h].Recovering?
    ensures Enabled(s, RecoverFails(h)) && Next(s, RecoverFails(h)) == s.(handlers := s.handlers[h := Finished])
  {}

  /** Turning the factor off, like a reset, leaves no secret and, with the next statement, no recovery code. */
  lemma ResetLeavesNothing(s: State, h: nat)
    requires Enabled(s, ResetWrite(h))
    ensures var s' := Next(s, ResetWrite(h));
            && s'.row.secret.None? && !s'.row.enabled && Enabled(s', DropCodes(h)) && Next(s', DropCodes(h)).codes == map[]
            && forall g: nat, step :: !Enabled(s', CheckCode(g, step)) && !Enabled(s', StartEnable(step))
  {}
}
