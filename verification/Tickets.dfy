/** The ticket between password and code (server/twofa.go): what a ticket can pay for in its life. */
module Tickets {
  import opened Common

  const TICKET_TTL := 300
  const TICKET_ATTEMPTS := 5

  datatype Ticket = Ticket(user: string, expires: int, attempts: nat)

  type Tickets = map<string, Ticket>

  /** An attempt that was granted, and when. */
  datatype Attempt = Attempt(ticket: string, at: int)

  /** Issuing sweeps out what has expired. */
  function Issue(tickets: Tickets, id: string, user: string, now: int): Tickets {
    (map k | k in tickets && now <= tickets[k].expires :: tickets[k])[id := Ticket(user, now + TICKET_TTL, 0)]
  }

  /** An attempt is spent before anything is known about the code; the sixth removes the ticket. */
  function Claim(tickets: Tickets, id: string, now: int): (Tickets, Option<string>) {
    if id !in tickets || now > tickets[id].expires then (tickets - {id}, None)
    else
      var t := tickets[id].(attempts := tickets[id].attempts + 1);
      if t.attempts > TICKET_ATTEMPTS then (tickets - {id}, None) else (tickets[id := t], Some(t.user))
  }

  function AttemptsOf(attempts: seq<Attempt>, id: string): nat {
    if attempts == [] then 0
    else AttemptsOf(attempts[..|attempts| - 1], id) + if attempts[|attempts| - 1].ticket == id then 1 else 0
  }

  lemma AttemptsSnoc(attempts: seq<Attempt>, a: Attempt, id: string)
    ensures AttemptsOf(attempts + [a], id) == AttemptsOf(attempts, id) + if a.ticket == id then 1 else 0
  {
    assert (attempts + [a])[..|attempts|] == attempts;
  }

  /**
   * Against everything ever issued (with its expiry) and every attempt ever granted: a ticket counts its attempts, no
   * ticket has been granted more than five, and none after it expired.
   */
  ghost predicate TicketsOk(tickets: Tickets, issued: map<string, int>, attempts: seq<Attempt>) {
    && (forall id | id in tickets :: TicketCounts(tickets[id], id, issued, attempts))
    && (forall id :: AttemptsOf(attempts, id) <= TICKET_ATTEMPTS)
    && (forall id | id !in issued :: AttemptsOf(attempts, id) == 0)
    && (forall a | a in attempts :: a.ticket in issued && a.at <= issued[a.ticket])
  }

  ghost predicate TicketCounts(t: Ticket, id: string, issued: map<string, int>, attempts: seq<Attempt>) {
    id in issued && t.expires == issued[id] && AttemptsOf(attempts, id) == t.attempts
  }

  lemma ClaimKeepsTickets(tickets: Tickets, issued: map<string, int>, attempts: seq<Attempt>, id: string, now: int)
    requires TicketsOk(tickets, issued, attempts)
    ensures var claim := Claim(tickets, id, now);
            TicketsOk(claim.0, issued, if claim.1.Some? then attempts + [Attempt(id, now)] else attempts)
  {
    hide AttemptsOf;
    forall x
      ensures AttemptsOf(attempts + [Attempt(id, now)], x) == AttemptsOf(attempts, x) + if id == x then 1 else 0
    {
      AttemptsSnoc(attempts, Attempt(id, now), x);
    }
  }

  lemma IssueKeepsTickets(tickets: Tickets, issued: map<string, int>, attempts: seq<Attempt>, id: string, user: string,
                          now: int)
    requires TicketsOk(tickets, issued, attempts) && id !in issued
    ensures TicketsOk(Issue(tickets, id, user, now), issued[id := now + TICKET_TTL], attempts)
  {
    hide AttemptsOf;
  }

  /** Dropping tickets breaks nothing. */
  lemma FewerTickets(tickets: Tickets, fewer: Tickets, issued: map<string, int>, attempts: seq<Attempt>)
    requires TicketsOk(tickets, issued, attempts) && forall id | id in fewer :: id in tickets && fewer[id] == tickets[id]
    ensures TicketsOk(fewer, issued, attempts)
  {
    hide AttemptsOf;
  }

  /** twoFATickets under its mutex. `issued`, `attempts` and `spent` remember all there ever was. */
  class TicketStore {
    var tickets: Tickets
    ghost var issued: map<string, int>
    ghost var attempts: seq<Attempt>
    ghost var spent: set<string>

    constructor ()
      ensures Valid() && tickets == map[] && issued == map[] && attempts == [] && spent == {}
    {
      tickets, issued, attempts, spent := map[], map[], [], {};
    }

    /** A ticket that bought a token is gone. */
    ghost predicate Valid()
      reads this
    {
      TicketsOk(tickets, issued, attempts) && forall id | id in spent :: id in issued && id !in tickets
    }

    /** The sweep removes exactly the expired tickets, and the new one starts with no attempts. */
    method IssueTicket(id: string, user: string, now: int)
      requires Valid() && id !in issued
      modifies this
      ensures Valid() && issued == old(issued)[id := now + TICKET_TTL] && attempts == old(attempts) && spent == old(spent)
      ensures forall k | k != id :: k in tickets <==> k in old(tickets) && now <= old(tickets)[k].expires
      ensures forall k | k in tickets && k != id :: tickets[k] == old(tickets)[k]
      ensures id in tickets && tickets[id] == Ticket(user, now + TICKET_TTL, 0)
      ensures tickets == Issue(old(tickets), id, user, now)
    {
      IssueKeepsTickets(tickets, issued, attempts, id, user, now);
      hide TicketsOk;
      Sweep(now);
      tickets := tickets[id := Ticket(user, now + TICKET_TTL, 0)];
      issued := issued[id := now + TICKET_TTL];
    }

    /** Cleanup along the way. */
    method Sweep(now: int)
      modifies `tickets
      ensures tickets == map k | k in old(tickets) && now <= old(tickets)[k].expires :: old(tickets)[k]
    {
      var todo := tickets.Keys;
      while todo != {}
        invariant todo <= tickets.Keys <= old(tickets).Keys
        invariant forall k | k in tickets :: tickets[k] == old(tickets)[k]
        invariant forall k | k in old(tickets) && k !in todo :: k in tickets <==> now <= old(tickets)[k].expires
        decreases |todo|
      {
        var k :| k in todo;
        if now > tickets[k].expires {
          tickets := tickets - {k};
        }
        todo := todo - {k};
      }
    }

    /**
     * An attempt is granted exactly to a ticket that is there, has not expired and has been granted fewer than five;
     * then it is counted, otherwise the ticket is gone. Other tickets stay.
     */
    method ClaimAttempt(id: string, now: int) returns (user: Option<string>)
      requires Valid()
      modifies this
      ensures Valid() && issued == old(issued) && spent == old(spent)
      ensures user.Some? <==> id in old(tickets) && now <= old(issued)[id] && AttemptsOf(old(attempts), id) < TICKET_ATTEMPTS
      ensures attempts == old(attempts) + if user.Some? then [Attempt(id, now)] else []
      ensures user.Some? ==> user.value == old(tickets)[id].user && id in tickets
      ensures user.None? ==> id !in tickets
      ensures tickets - {id} == old(tickets) - {id}
      ensures (tickets, user) == Claim(old(tickets), id, now)
    {
      ClaimKeepsTickets(tickets, issued, attempts, id, now);
      assert id in tickets ==> TicketCounts(tickets[id], id, issued, attempts);
      assert attempts + [] == attempts;
      hide TicketsOk;
      if id !in tickets || now > tickets[id].expires {
        tickets := tickets - {id};
        return None;
      }
      var t := tickets[id];
      t := t.(attempts := t.attempts + 1);
      tickets := tickets[id := t];
      assert tickets - {id} == old(tickets) - {id};
      if t.attempts > TICKET_ATTEMPTS {
        tickets := tickets - {id};
        return None;
      }
      attempts := attempts + [Attempt(id, now)];
      user := Some(t.user);
    }

    method DropTicket(id: string)
      requires Valid()
      modifies this
      ensures Valid() && tickets == old(tickets) - {id}
      ensures issued == old(issued) && attempts == old(attempts) && spent == old(spent)
    {
      FewerTickets(tickets, tickets - {id}, issued, attempts);
      tickets := tickets - {id};
    }

    /**
     * The second sign-in step without interruption: a token needs a granted attempt and an accepted code, and no ticket
     * ever buys two.
     */
    method SignIn(id: string, now: int, accepted: bool) returns (token: Option<string>)
      requires Valid()
      modifies this
      ensures Valid() && issued == old(issued)
      ensures token.Some? <==>
                accepted && id in old(tickets) && now <= old(issued)[id] && AttemptsOf(old(attempts), id) < TICKET_ATTEMPTS
      ensures token.Some? ==> token.value == old(tickets)[id].user && id !in old(spent) && spent == old(spent) + {id}
      ensures token.None? ==> spent == old(spent)
    {
      hide TicketsOk, Claim;
      var user := ClaimAttempt(id, now);
      if user.None? || !accepted {
        return None;
      }
      Registered(id);
      DropTicket(id);
      spent := spent + {id};
      token := user;
    }

    lemma Registered(id: string)
      requires Valid() && id in tickets
      ensures id in issued
    {
      assert TicketCounts(tickets[id], id, issued, attempts);
    }
  }
}
