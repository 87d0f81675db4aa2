/** Group chats: the membership cache and the member-facing handlers (server/groups.go). */
module Groups {
  import opened Common
  import Text

  const MAX_GROUP_MEMBERS := 200
  const MAX_NAME_RUNES := 64
  const MAX_DESCRIPTION_RUNES := 280

  datatype Member = Member(user: string, admin: bool)

  datatype Group = Group(name: string, description: string, createdBy: string)

  /** The tables groups and group_members, the members of a group in the order they joined. */
  datatype Db = Db(groups: map<string, Group>, members: map<string, seq<Member>>)

  datatype Cached = Cached(name: string, roles: map<string, bool>)

  datatype Status = Done | BadRequest | Forbidden | Conflict | TooMany | ServerError

  // ── Statements on the members of one group ──────────────────────────────

  predicate IsMember(ms: seq<Member>, user: string) {
    Member(user, true) in ms || Member(user, false) in ms
  }

  /** INSERT ... ON CONFLICT DO NOTHING, as an ordinary member. */
  function Join(ms: seq<Member>, user: string): seq<Member> {
    if IsMember(ms, user) then ms else ms + [Member(user, false)]
  }

  /** DELETE ... WHERE username = user. */
  function Expel(ms: seq<Member>, user: string): seq<Member> {
    if ms == [] then []
    else (if ms[0].user == user then [] else [ms[0]]) + Expel(ms[1..], user)
  }

  /** UPDATE ... SET role WHERE username = user. */
  function SetRole(ms: seq<Member>, user: string, admin: bool): seq<Member> {
    if ms == [] then []
    else [if ms[0].user == user then Member(user, admin) else ms[0]] + SetRole(ms[1..], user, admin)
  }

  /** SELECT COUNT(*) ... WHERE role = 'admin'. */
  function Admins(ms: seq<Member>): nat {
    if ms == [] then 0 else (if ms[0].admin then 1 else 0) + Admins(ms[1..])
  }

  /** UPDATE ... SET role = 'admin' for the member who joined first. */
  function PromoteOldest(ms: seq<Member>): seq<Member>
    requires ms != []
  {
    ms[0 := Member(ms[0].user, true)]
  }

  function Roles(ms: seq<Member>): map<string, bool> {
    if ms == [] then map[] else Roles(ms[..|ms| - 1])[ms[|ms| - 1].user := ms[|ms| - 1].admin]
  }

  /** The primary key. */
  predicate UniqueUsers(ms: seq<Member>) {
    forall i, j :: 0 <= i < j < |ms| ==> ms[i].user != ms[j].user
  }

  predicate GroupOk(ms: seq<Member>) {
    UniqueUsers(ms) && |ms| <= MAX_GROUP_MEMBERS && Admins(ms) >= 1
  }

  lemma {:induction false} RolesAre(ms: seq<Member>)
    requires UniqueUsers(ms)
    ensures forall u :: u in Roles(ms) <==> IsMember(ms, u)
    ensures forall u | u in Roles(ms) :: Member(u, Roles(ms)[u]) in ms
  {
    if ms != [] {
      var init, last := ms[..|ms| - 1], ms[|ms| - 1];
      RolesAre(init);
      assert ms == init + [last];
      forall m | m in init
        ensures m.user != last.user
      {
        var i :| 0 <= i < |init| && init[i] == m;
        assert ms[i] == m;
      }
    }
  }

  /** The role in the map is the role in the row. */
  lemma RoleIs(ms: seq<Member>, user: string)
    requires UniqueUsers(ms)
    ensures Member(user, true) in ms <==> user in Roles(ms) && Roles(ms)[user]
  {
    RolesAre(ms);
  }

  lemma {:induction false} AdminCounts(ms: seq<Member>, user: string)
    requires Member(user, true) in ms
    ensures Admins(ms) >= 1
  {
    if ms[0] != Member(user, true) {
      AdminCounts(ms[1..], user);
    }
  }

  lemma {:induction false} AdminsAppend(ms: seq<Member>, m: Member)
    ensures Admins(ms + [m]) == Admins(ms) + if m.admin then 1 else 0
  {
    if ms == [] {
      assert [m][1..] == [];
    } else {
      assert (ms + [m])[1..] == ms[1..] + [m];
      AdminsAppend(ms[1..], m);
    }
  }

  lemma JoinKeeps(ms: seq<Member>, user: string)
    requires UniqueUsers(ms)
    ensures UniqueUsers(Join(ms, user)) && |ms| <= |Join(ms, user)| <= |ms| + 1 && ms <= Join(ms, user)
  {
    if !IsMember(ms, user) {
      forall i | 0 <= i < |ms|
        ensures ms[i].user != user
      {
        assert ms[i] in ms && ms[i] == Member(ms[i].user, ms[i].admin);
      }
    }
  }

  lemma {:induction false} ExpelKeeps(ms: seq<Member>, user: string)
    requires UniqueUsers(ms)
    ensures UniqueUsers(Expel(ms, user)) && |Expel(ms, user)| <= |ms|
    ensures forall m :: m in Expel(ms, user) <==> m in ms && m.user != user
  {
    if ms != [] {
      var tail := ms[1..];
      ExpelKeeps(tail, user);
      assert ms == [ms[0]] + tail;
      forall m | m in tail
        ensures m.user != ms[0].user
      {
        var i :| 0 <= i < |tail| && tail[i] == m;
        assert ms[i + 1] == m;
      }
    }
  }

  lemma {:induction false} SetRoleAt(ms: seq<Member>, user: string, admin: bool)
    ensures |SetRole(ms, user, admin)| == |ms|
    ensures forall i :: 0 <= i < |ms| ==> SetRole(ms, user, admin)[i] == if ms[i].user == user then Member(user, admin) else ms[i]
  {
    if ms != [] {
      SetRoleAt(ms[1..], user, admin);
    }
  }

  /** One role changes in one row, so at most one admin is lost. */
  lemma {:induction false} SetRoleAdmins(ms: seq<Member>, user: string, admin: bool)
    requires UniqueUsers(ms)
    ensures Admins(SetRole(ms, user, admin)) >= Admins(ms) - 1
  {
    if ms != [] {
      var tail := ms[1..];
      SetRoleAdmins(tail, user, admin);
      if ms[0].user == user {
        SetRoleAt(tail, user, admin);
        assert SetRole(tail, user, admin) == tail;
      }
    }
  }

  // ── What a request does, cache aside ────────────────────────────────────

  datatype Request =
    | Create(name: string, people: seq<string>, limited: bool, newId: string)
    | ChangeMembers(gid: string, add: seq<string>, remove: seq<string>)
    | ChangeRole(gid: string, user: string, admin: bool)
    | Leave(gid: string)
    | Delete(gid: string)
    | Update(gid: string, newName: Option<string>, newDescription: Option<string>)

  predicate IsAdminOf(db: Db, gid: string, user: string) {
    gid in db.groups && gid in db.members && Member(user, true) in db.members[gid]
  }

  predicate ValidName(name: string) {
    name != "" && |name| <= MAX_NAME_RUNES
  }

  predicate NameTaken(db: Db, name: string, except: string) {
    exists id :: id in db.groups && db.groups[id].name == name && id != except
  }

  function WithMembers(db: Db, gid: string, ms: seq<Member>): Db {
    db.(members := db.members[gid := ms])
  }

  lemma Overwrite(db: Db, gid: string, first: seq<Member>, second: seq<Member>)
    ensures WithMembers(WithMembers(db, gid, first), gid, second) == WithMembers(db, gid, second)
  {}

  lemma Forgotten(db: Db, gid: string, ms: seq<Member>)
    ensures Without(WithMembers(db, gid, ms), gid) == Without(db, gid)
  {}

  function Without(db: Db, gid: string): Db {
    Db(db.groups - {gid}, db.members - {gid})
  }

  /** The first `n` of the people, as far as they exist and are not `except`. */
  function JoinAll(ms: seq<Member>, users: set<string>, people: seq<string>, n: nat,
                   except: Option<string>): seq<Member>
    requires n <= |people|
  {
    if n == 0 then ms
    else
      var before := JoinAll(ms, users, people, n - 1, except);
      if people[n - 1] in users && except != Some(people[n - 1]) then Join(before, people[n - 1]) else before
  }

  /** All but oneself can be removed. */
  function ExpelAll(ms: seq<Member>, me: string, people: seq<string>, n: nat): seq<Member>
    requires n <= |people|
  {
    if n == 0 then ms
    else
      var before := ExpelAll(ms, me, people, n - 1);
      if people[n - 1] == me then before else Expel(before, people[n - 1])
  }

  /** Whoever remains after one member left: the oldest takes over if no admin is among them. */
  function AfterLeaving(ms: seq<Member>): seq<Member> {
    if ms != [] && Admins(ms) == 0 then PromoteOldest(ms) else ms
  }

  function ApplyUpdate(db: Db, gid: string, newName: Option<string>, newDescription: Option<string>): (Db, Status)
    requires gid in db.groups
  {
    if newName == None && newDescription == None then (db, BadRequest)
    else
      var name := if newName.Some? then Text.TrimSpace(newName.value) else db.groups[gid].name;
      if newName.Some? && !ValidName(name) then (db, BadRequest)
      else if newName.Some? && NameTaken(db, name, gid) then (db, Conflict)
      else
        var named := if newName.Some? then Described(db, gid, db.groups[gid].(name := name)) else db;
        if newDescription.None? then (named, Done)
        else
          var text := Text.TrimSpace(newDescription.value);
          if |text| > MAX_DESCRIPTION_RUNES then (named, BadRequest)
          else (Described(named, gid, named.groups[gid].(description := text)), Done)
  }

  function Described(db: Db, gid: string, g: Group): Db {
    db.(groups := db.groups[gid := g])
  }

  /** The tables after a request, and its outcome. `allowed` is the verdict on the author's admin role. */
  function ApplyAs(db: Db, users: set<string>, me: string, r: Request, allowed: bool): (Db, Status)
    requires !r.Create? && !r.Leave? && allowed ==> r.gid in db.groups && r.gid in db.members
  {
    match r
    case Create(raw, people, limited, gid) =>
      var name := Text.TrimSpace(raw);
      if !ValidName(name) then (db, BadRequest)
      else if |people| > MAX_GROUP_MEMBERS - 1 then (db, Conflict)
      else if limited then (db, TooMany)
      else if NameTaken(db, name, "") then (db, Conflict)
      else if gid in db.groups then (db, ServerError)
      else
        var ms := JoinAll([Member(me, true)], users, people, |people|, Some(me));
        (Db(db.groups[gid := Group(name, "", me)], db.members[gid := ms]), Done)
    case ChangeMembers(gid, add, remove) =>
      if !IsGroup(gid) then (db, BadRequest)
      else if !allowed then (db, Forbidden)
      else if |add| > 0 && |db.members[gid]| + |add| > MAX_GROUP_MEMBERS then (db, Conflict)
      else
        var joined := JoinAll(db.members[gid], users, add, |add|, None);
        (WithMembers(db, gid, ExpelAll(joined, me, remove, |remove|)), Done)
    case ChangeRole(gid, user, admin) =>
      if !allowed then (db, Forbidden)
      else if user == me && !admin && Admins(db.members[gid]) < 2 then (db, Conflict)
      else (WithMembers(db, gid, SetRole(db.members[gid], user, admin)), Done)
    case Leave(gid) =>
      if gid !in db.groups || gid !in db.members || !IsMember(db.members[gid], me) then (db, Forbidden)
      else
        var rest := Expel(db.members[gid], me);
        if rest == [] then (Without(db, gid), Done)
        else (WithMembers(db, gid, AfterLeaving(rest)), Done)
    case Delete(gid) =>
      if !IsGroup(gid) then (db, BadRequest)
      else if !allowed then (db, Forbidden)
      else (Without(db, gid), Done)
    case Update(gid, newName, newDescription) =>
      if !IsGroup(gid) then (db, BadRequest)
      else if !allowed then (db, Forbidden)
      else ApplyUpdate(db, gid, newName, newDescription)
  }

  /** The reference: permissions are read from the tables themselves. */
  function Apply(db: Db, users: set<string>, me: string, r: Request): (Db, Status) {
    ApplyAs(db, users, me, r, !r.Create? && IsAdminOf(db, r.gid, me))
  }

  // ── What each request does to the tables ────────────────────────────────

  /** Who is in after the inserts: whoever was, as he was, and the existing users among the people as ordinary members. */
  lemma {:induction false} JoinAllAre(ms: seq<Member>, users: set<string>, people: seq<string>, n: nat,
                                      except: Option<string>)
    requires n <= |people|
    ensures forall m :: m in JoinAll(ms, users, people, n, except) <==>
              m in ms || (!m.admin && Invited(users, people[..n], except, m.user) && !IsMember(ms, m.user))
  {
    if n > 0 {
      var before, u := JoinAll(ms, users, people, n - 1, except), people[n - 1];
      JoinAllAre(ms, users, people, n - 1, except);
      assert people[..n] == people[..n - 1] + [u];
      assert forall x :: x in people[..n] <==> x in people[..n - 1] || x == u;
      hide JoinAll, Invited;
      OneJoins(ms, before, users, people[..n - 1], people[..n], u, except);
      assert JoinAll(ms, users, people, n, except) == if u in users && except != Some(u) then Join(before, u) else before by {
        JoinAllNext(ms, users, people, n, except);
      }
    }
  }

  predicate Invited(users: set<string>, people: seq<string>, except: Option<string>, user: string) {
    user in users && user in people && except != Some(user)
  }

  lemma JoinAllNext(ms: seq<Member>, users: set<string>, people: seq<string>, n: nat, except: Option<string>)
    requires 0 < n <= |people|
    ensures var before, u := JoinAll(ms, users, people, n - 1, except), people[n - 1];
            JoinAll(ms, users, people, n, except) == if u in users && except != Some(u) then Join(before, u) else before
  {}

  lemma OneJoins(ms: seq<Member>, before: seq<Member>, users: set<string>, few: seq<string>, more: seq<string>, u: string,
                 except: Option<string>)
    requires forall x :: x in more <==> x in few || x == u
    requires forall m :: m in before <==> m in ms || (!m.admin && Invited(users, few, except, m.user) && !IsMember(ms, m.user))
    ensures forall m :: m in (if u in users && except != Some(u) then Join(before, u) else before) <==>
              m in ms || (!m.admin && Invited(users, more, except, m.user) && !IsMember(ms, m.user))
  {
    assert IsMember(before, u) <==> IsMember(ms, u) || Invited(users, few, except, u);
  }

  /** Only the group's rows may differ. */
  predicate OnlyGroup(db: Db, db': Db, gid: string) {
    && db'.groups - {gid} == db.groups - {gid} && db'.members - {gid} == db.members - {gid}
  }

  /** A new group has its creator for admin, the existing ones among the people for members, and nobody else. */
  lemma Creates(db: Db, users: set<string>, me: string, name: string, people: seq<string>, limited: bool, gid: string)
    requires DbOk(db)
    ensures var (db', status) := Apply(db, users, me, Create(name, people, limited, gid));
            && (status == Done <==>
                  && 0 < |Text.TrimSpace(name)| <= 64 && |people| <= 199 && !limited && gid !in db.groups
                  && forall id | id in db.groups && id != "" :: db.groups[id].name != Text.TrimSpace(name))
            && (status != Done ==> db' == db)
            && (status == Done ==>
                  && OnlyGroup(db, db', gid) && gid in db'.groups && gid in db'.members
                  && db'.groups[gid] == Group(Text.TrimSpace(name), "", me)
                  && forall m :: m in db'.members[gid] <==>
                       m == Member(me, true) || (!m.admin && m.user != me && m.user in users && m.user in people))
  {
    hide Text.TrimSpace, JoinAll;
    JoinAllAre([Member(me, true)], users, people, |people|, Some(me));
    assert people[..|people|] == people;
  }

  /** Who is a member after a change, and as what. */
  lemma ChangesMembers(db: Db, users: set<string>, me: string, gid: string, add: seq<string>, remove: seq<string>)
    requires DbOk(db)
    ensures var (db', status) := Apply(db, users, me, ChangeMembers(gid, add, remove));
            && (status == Done <==>
                  && "g:" <= gid && gid in db.groups && Member(me, true) in db.members[gid]
                  && (add == [] || |db.members[gid]| + |add| <= 200))
            && (status != Done ==> db' == db)
            && (status == Done ==>
                  && OnlyGroup(db, db', gid) && db'.groups == db.groups && gid in db'.members
                  && forall m :: m in db'.members[gid] <==>
                       && (m.user == me || m.user !in remove)
                       && (m in db.members[gid]
                           || (!m.admin && m.user in users && m.user in add && Member(m.user, true) !in db.members[gid])))
  {
    hide JoinAll, ExpelAll;
    if IsAdminOf(db, gid, me) {
      var ms := db.members[gid];
      assert GroupOk(ms);
      JoinAllAre(ms, users, add, |add|, None);
      JoinAllKeeps(ms, users, add, |add|, None);
      var joined := JoinAll(ms, users, add, |add|, None);
      ExpelAllKeeps(joined, me, remove, |remove|);
      assert add[..|add|] == add && remove[..|remove|] == remove;
      hide GroupOk;
    }
  }

  /** One role changes, if there is such a member, and the last admin cannot give his up. */
  lemma ChangesRole(db: Db, users: set<string>, me: string, gid: string, user: string, admin: bool)
    requires DbOk(db)
    ensures var (db', status) := Apply(db, users, me, ChangeRole(gid, user, admin));
            && (status == Done <==>
                  && gid in db.groups && Member(me, true) in db.members[gid]
                  && (user == me && !admin ==> exists u :: u != me && Member(u, true) in db.members[gid]))
            && (status != Done ==> db' == db)
            && (status == Done ==>
                  && OnlyGroup(db, db', gid) && db'.groups == db.groups && gid in db'.members
                  && |db'.members[gid]| == |db.members[gid]|
                  && forall i :: 0 <= i < |db.members[gid]| ==>
                       db'.members[gid][i] == if db.members[gid][i].user == user then Member(user, admin) else db.members[gid][i])
  {
    if IsAdminOf(db, gid, me) {
      assert GroupOk(db.members[gid]);
      SetRoleAt(db.members[gid], user, admin);
      LastAdmin(db.members[gid], me);
    }
  }

  /** An admin is the only one exactly if there is no other. */
  lemma {:induction false} LastAdmin(ms: seq<Member>, me: string)
    requires UniqueUsers(ms) && Member(me, true) in ms
    ensures Admins(ms) >= 2 <==> exists u :: u != me && Member(u, true) in ms
  {
    var tail := ms[1..];
    assert ms == [ms[0]] + tail;
    FirstIsUnique(ms);
    if ms[0] == Member(me, true) {
      NoAdmins(tail);
    } else if ms[0].admin {
      AdminCounts(tail, me);
      assert Member(ms[0].user, true) in ms;
    } else {
      LastAdmin(tail, me);
    }
  }

  lemma {:induction false} NoAdmins(ms: seq<Member>)
    ensures Admins(ms) == 0 <==> forall u :: Member(u, true) !in ms
  {
    if ms != [] {
      NoAdmins(ms[1..]);
      assert ms == [ms[0]] + ms[1..];
      if ms[0].admin {
        assert Member(ms[0].user, true) in ms;
      }
    }
  }

  /**
   * Whoever leaves is gone; the others stay as they were, but for the one who joined first, if no admin is left; and a
   * group ends with its last member.
   */
  lemma Leaves(db: Db, users: set<string>, me: string, gid: string)
    requires DbOk(db)
    ensures var (db', status) := Apply(db, users, me, Leave(gid));
            && (status == Done <==> gid in db.groups && (Member(me, true) in db.members[gid] || Member(me, false) in db.members[gid]))
            && (status != Done ==> db' == db)
            && (status == Done ==>
                  && OnlyGroup(db, db', gid)
                  && (gid in db'.groups <==> exists m :: m in db.members[gid] && m.user != me)
                  && (gid in db'.groups <==> gid in db'.members)
                  && (gid in db'.groups ==> db'.groups == db.groups && Left(db.members[gid], db'.members[gid], me)))
  {
    hide Expel, AfterLeaving, Left, Admins, UniqueUsers;
    if gid in db.groups && IsMember(db.members[gid], me) {
      assert GroupOk(db.members[gid]);
      Remain(db.members[gid], me);
    }
  }

  lemma Remain(ms: seq<Member>, me: string)
    requires UniqueUsers(ms) && IsMember(ms, me)
    ensures Expel(ms, me) == [] <==> !exists m :: m in ms && m.user != me
    ensures Expel(ms, me) != [] ==> Left(ms, AfterLeaving(Expel(ms, me)), me)
  {
    hide UniqueUsers, Expel;
    var rest := Expel(ms, me);
    ExpelKeeps(ms, me);
    var k := ExpelAt(ms, me);
    if rest != [] {
      assert rest[0] in rest;
      NoAdmins(rest);
      assert Succeeds(ms[..k] + ms[k + 1..], AfterLeaving(rest));
    }
  }

  /** The rows but one, in the order their members joined; the first may have been given the admin's role. */
  ghost predicate Left(before: seq<Member>, now: seq<Member>, me: string) {
    exists k :: 0 <= k < |before| && before[k].user == me && Succeeds(before[..k] + before[k + 1..], now)
  }

  ghost predicate Succeeds(rest: seq<Member>, now: seq<Member>) {
    && |now| == |rest| > 0
    && (forall i :: 0 < i < |now| ==> now[i] == rest[i])
    && now[0] == Member(rest[0].user, rest[0].admin || forall m | m in rest :: !m.admin)
  }

  lemma {:induction false} ExpelAt(ms: seq<Member>, user: string) returns (k: nat)
    requires UniqueUsers(ms) && exists m :: m in ms && m.user == user
    ensures k < |ms| && ms[k].user == user && Expel(ms, user) == ms[..k] + ms[k + 1..]
  {
    hide UniqueUsers;
    var tail := ms[1..];
    assert ms == [ms[0]] + tail;
    FirstIsUnique(ms);
    if ms[0].user == user {
      k := 0;
      NobodyExpelled(tail, user);
    } else {
      k := ExpelAt(tail, user);
      k := k + 1;
      assert ms[..k] == [ms[0]] + tail[..k - 1] && ms[k + 1..] == tail[k..];
    }
  }

  lemma FirstIsUnique(ms: seq<Member>)
    requires UniqueUsers(ms) && ms != []
    ensures UniqueUsers(ms[1..]) && forall m | m in ms[1..] :: m.user != ms[0].user
  {
    var tail := ms[1..];
    forall m | m in tail
      ensures m.user != ms[0].user
    {
      var i :| 0 <= i < |tail| && tail[i] == m;
      assert ms[i + 1] == m;
    }
  }

  lemma {:induction false} NobodyExpelled(ms: seq<Member>, user: string)
    requires forall m | m in ms :: m.user != user
    ensures Expel(ms, user) == ms
  {
    if ms != [] {
      NobodyExpelled(ms[1..], user);
    }
  }

  /** A deleted group is gone, and no other. */
  lemma Deletes(db: Db, users: set<string>, me: string, gid: string)
    requires DbOk(db)
    ensures var (db', status) := Apply(db, users, me, Delete(gid));
            && (status == Done <==> "g:" <= gid && gid in db.groups && Member(me, true) in db.members[gid])
            && db' == if status == Done then Db(db.groups - {gid}, db.members - {gid}) else db
  {}

  /**
   * What an update leaves: nothing but the name and the description of this group can differ. The name is the trimmed
   * one, if one was given that is allowed and free, and then also if the description is refused.
   */
  lemma Updates(db: Db, users: set<string>, me: string, gid: string, newName: Option<string>, newDescription: Option<string>)
    requires DbOk(db) && "g:" <= gid && gid in db.groups && Member(me, true) in db.members[gid]
    ensures var (db', status) := Apply(db, users, me, Update(gid, newName, newDescription));
            var name := if newName.Some? then Text.TrimSpace(newName.value) else db.groups[gid].name;
            var text := if newDescription.Some? then Text.TrimSpace(newDescription.value) else db.groups[gid].description;
            var named := newName.None? || (0 < |name| <= 64 && !exists id :: id in db.groups && id != gid && db.groups[id].name == name);
            var described := newDescription.None? || |text| <= 280;
            && OnlyGroup(db, db', gid) && db'.members == db.members && gid in db'.groups
            && (status == Done <==> (newName.Some? || newDescription.Some?) && named && described)
            && db'.groups[gid] == Group(if named then name else db.groups[gid].name,
                                        if named && described then text else db.groups[gid].description,
                                        db.groups[gid].createdBy)
  {
    hide Text.TrimSpace;
  }

  /** Nobody but an admin of the group gets anything done to it, except that members may leave. */
  lemma OthersAreRefused(db: Db, users: set<string>, me: string, r: Request)
    requires DbOk(db) && !r.Create? && !r.Leave?
    requires r.gid !in db.groups || Member(me, true) !in db.members[r.gid]
    ensures Apply(db, users, me, r).0 == db && Apply(db, users, me, r).1 in {Forbidden, BadRequest}
  {}

  // ── What every request keeps ────────────────────────────────────────────

  /** Every group has its members, an admin among them, and at most 200. */
  ghost predicate DbOk(db: Db) {
    && db.members.Keys == db.groups.Keys
    && forall gid | gid in db.members :: GroupOk(db.members[gid])
  }

  lemma {:induction false} JoinAllKeeps(ms: seq<Member>, users: set<string>, people: seq<string>, n: nat,
                                        except: Option<string>)
    requires UniqueUsers(ms) && n <= |people|
    ensures UniqueUsers(JoinAll(ms, users, people, n, except)) && |JoinAll(ms, users, people, n, except)| <= |ms| + n
    ensures ms <= JoinAll(ms, users, people, n, except)
  {
    hide UniqueUsers, Join;
    if n > 0 {
      JoinAllKeeps(ms, users, people, n - 1, except);
      JoinKeeps(JoinAll(ms, users, people, n - 1, except), people[n - 1]);
    }
  }

  lemma {:induction false} ExpelAllKeeps(ms: seq<Member>, me: string, people: seq<string>, n: nat)
    requires UniqueUsers(ms) && n <= |people|
    ensures UniqueUsers(ExpelAll(ms, me, people, n)) && |ExpelAll(ms, me, people, n)| <= |ms|
    ensures forall m :: m in ExpelAll(ms, me, people, n) <==> m in ms && (m.user == me || m.user !in people[..n])
  {
    hide UniqueUsers, Expel;
    if n > 0 {
      ExpelAllKeeps(ms, me, people, n - 1);
      ExpelKeeps(ExpelAll(ms, me, people, n - 1), people[n - 1]);
      assert people[..n] == people[..n - 1] + [people[n - 1]];
    }
  }

  lemma PromoteKeeps(ms: seq<Member>)
    requires UniqueUsers(ms) && ms != []
    ensures UniqueUsers(PromoteOldest(ms)) && |PromoteOldest(ms)| == |ms|
  {}

  lemma LeavingKeeps(ms: seq<Member>, me: string)
    requires GroupOk(ms) && Expel(ms, me) != []
    ensures GroupOk(AfterLeaving(Expel(ms, me)))
  {
    ExpelKeeps(ms, me);
    var rest := Expel(ms, me);
    if Admins(rest) == 0 {
      hide UniqueUsers, Admins;
      PromoteKeeps(rest);
      assert PromoteOldest(rest)[0] == Member(rest[0].user, true);
      AdminCounts(PromoteOldest(rest), rest[0].user);
    }
  }

  lemma {:induction false} MembersKeep(db: Db, users: set<string>, me: string, gid: string, add: seq<string>,
                                       remove: seq<string>)
    requires DbOk(db) && IsAdminOf(db, gid, me)
    requires |add| == 0 || |db.members[gid]| + |add| <= MAX_GROUP_MEMBERS
    ensures GroupOk(ExpelAll(JoinAll(db.members[gid], users, add, |add|, None), me, remove, |remove|))
  {
    hide UniqueUsers, Admins;
    JoinAllKeeps(db.members[gid], users, add, |add|, None);
    var joined := JoinAll(db.members[gid], users, add, |add|, None);
    ExpelAllKeeps(joined, me, remove, |remove|);
    AdminCounts(ExpelAll(joined, me, remove, |remove|), me);
  }

  lemma RoleKeeps(ms: seq<Member>, me: string, user: string, admin: bool)
    requires GroupOk(ms) && Member(me, true) in ms && !(user == me && !admin && Admins(ms) < 2)
    ensures GroupOk(SetRole(ms, user, admin))
  {
    SetRoleAt(ms, user, admin);
    SetRoleAdmins(ms, user, admin);
    if user != me || admin {
      var i :| 0 <= i < |ms| && ms[i] == Member(me, true);
      assert SetRole(ms, user, admin)[i] == Member(me, true);
      AdminCounts(SetRole(ms, user, admin), me);
    }
  }

  lemma CreateKeeps(me: string, users: set<string>, people: seq<string>)
    requires |people| <= MAX_GROUP_MEMBERS - 1
    ensures GroupOk(JoinAll([Member(me, true)], users, people, |people|, Some(me)))
  {
    JoinAllKeeps([Member(me, true)], users, people, |people|, Some(me));
    assert JoinAll([Member(me, true)], users, people, |people|, Some(me))[0] == Member(me, true);
    AdminCounts(JoinAll([Member(me, true)], users, people, |people|, Some(me)), me);
  }

  /** Whatever is asked and whoever asks: the admin, the key and the size limit survive. */
  lemma ApplyKeeps(db: Db, users: set<string>, me: string, r: Request)
    requires DbOk(db)
    ensures DbOk(Apply(db, users, me, r).0)
  {
    hide GroupOk, JoinAll, ExpelAll, SetRole, AfterLeaving, ValidName, NameTaken, Admins, IsMember, Text.TrimSpace;
    match r
    case Create(_, people, _, _) =>
      if |people| <= MAX_GROUP_MEMBERS - 1 {
        CreateKeeps(me, users, people);
      }
    case ChangeMembers(gid, add, remove) =>
      if IsAdminOf(db, gid, me) && (|add| == 0 || |db.members[gid]| + |add| <= MAX_GROUP_MEMBERS) {
        MembersKeep(db, users, me, gid, add, remove);
      }
    case ChangeRole(gid, user, admin) =>
      if IsAdminOf(db, gid, me) && !(user == me && !admin && Admins(db.members[gid]) < 2) {
        RoleKeeps(db.members[gid], me, user, admin);
      }
    case Leave(gid) =>
      if gid in db.members && Expel(db.members[gid], me) != [] {
        LeavingKeeps(db.members[gid], me);
      }
    case Delete(_) =>
    case Update(_, _, _) =>
  }

  datatype Step = Step(me: string, users: set<string>, request: Request)

  function Run(db: Db, steps: seq<Step>): Db {
    if steps == [] then db
    else
      var last := steps[|steps| - 1];
      Apply(Run(db, steps[..|steps| - 1]), last.users, last.me, last.request).0
  }

  /** Over whole runs of the handlers no group is left without an admin or grows beyond its limit. */
  lemma {:induction false} EveryGroupHasAnAdmin(db: Db, steps: seq<Step>, gid: string)
    requires DbOk(db)
    ensures DbOk(Run(db, steps))
    ensures gid in Run(db, steps).groups ==>
              var ms := Run(db, steps).members[gid]; (exists m | m in ms :: m.admin) && |ms| <= MAX_GROUP_MEMBERS
  {
    hide Apply, GroupOk;
    if steps != [] {
      var last := steps[|steps| - 1];
      EveryGroupHasAnAdmin(db, steps[..|steps| - 1], gid);
      ApplyKeeps(Run(db, steps[..|steps| - 1]), last.users, last.me, last.request);
    }
    if gid in Run(db, steps).groups {
      SomeAdmin(Run(db, steps).members[gid]);
    }
  }

  lemma {:induction false} AdminsMeansSome(ms: seq<Member>)
    requires Admins(ms) >= 1
    ensures exists m | m in ms :: m.admin
  {
    if ms[0].admin {
      assert ms[0] in ms;
    } else {
      AdminsMeansSome(ms[1..]);
    }
  }

  lemma SomeAdmin(ms: seq<Member>)
    requires GroupOk(ms)
    ensures (exists m | m in ms :: m.admin) && |ms| <= MAX_GROUP_MEMBERS
  {
    AdminsMeansSome(ms);
  }

  lemma {:induction false} JoinAllAdmins(ms: seq<Member>, users: set<string>, people: seq<string>, n: nat,
                                         except: Option<string>, user: string)
    requires n <= |people|
    ensures Member(user, true) in JoinAll(ms, users, people, n, except) <==> Member(user, true) in ms
  {
    if n > 0 {
      JoinAllAdmins(ms, users, people, n - 1, except, user);
    }
  }

  /** When nobody who stays is an admin, the one who leaves was. */
  lemma OnlyAdminLeft(ms: seq<Member>, me: string)
    requires GroupOk(ms) && Admins(Expel(ms, me)) == 0
    ensures Member(me, true) in ms
  {
    ExpelKeeps(ms, me);
    AdminsMeansSome(ms);
    var m :| m in ms && m.admin;
    assert m == Member(m.user, true);
    if m.user != me {
      AdminCounts(Expel(ms, me), m.user);
    }
  }

  lemma UpdateLeavesMembers(db: Db, gid: string, newName: Option<string>, newDescription: Option<string>)
    requires gid in db.groups
    ensures ApplyUpdate(db, gid, newName, newDescription).0.members == db.members
    ensures ApplyUpdate(db, gid, newName, newDescription).0.groups.Keys == db.groups.Keys
  {}

  /** Nobody becomes an admin of an existing group but by an admin's word or as the oldest of those left behind. */
  lemma AdminsAreMadeByAdmins(db: Db, users: set<string>, me: string, r: Request, gid: string, user: string)
    requires DbOk(db) && gid in db.groups
    requires !IsAdminOf(db, gid, user) && IsAdminOf(Apply(db, users, me, r).0, gid, user)
    ensures (r == ChangeRole(gid, user, true) && IsAdminOf(db, gid, me))
         || (r == Leave(gid) && IsAdminOf(db, gid, me) && user != me && Admins(Expel(db.members[gid], me)) == 0
             && Expel(db.members[gid], me)[0].user == user)
  {
    hide JoinAll, ExpelAll, SetRole, ValidName, NameTaken, Text.TrimSpace, ApplyUpdate, Expel, UniqueUsers;
    var ms := db.members[gid];
    assert GroupOk(ms);
    match r
    case Create(_, _, _, _) =>
    case ChangeMembers(g, add, remove) =>
      if g == gid && IsAdminOf(db, gid, me) {
        JoinAllAdmins(ms, users, add, |add|, None, user);
        JoinAllKeeps(ms, users, add, |add|, None);
        ExpelAllKeeps(JoinAll(ms, users, add, |add|, None), me, remove, |remove|);
      }
    case ChangeRole(g, u, admin) =>
      if g == gid {
        SetRoleAt(ms, u, admin);
      }
    case Leave(g) =>
      if g == gid {
        ExpelKeeps(ms, me);
        if Admins(Expel(ms, me)) == 0 {
          OnlyAdminLeft(ms, me);
        }
      }
    case Delete(_) =>
    case Update(_, newName, newDescription) =>
      if IsAdminOf(db, r.gid, me) {
        UpdateLeavesMembers(db, r.gid, newName, newDescription);
      }
  }

  /** Why the admin claim needs the cache claim: one admin check answered from a stale entry orphans a group. */
  lemma StaleAdminOrphansAGroup()
    ensures exists db: Db, me: string, r: Request :: DbOk(db) && r.ChangeMembers? && r.gid in db.groups && r.gid in db.members
              && !IsAdminOf(db, r.gid, me) && !DbOk(ApplyAs(db, {}, me, r, true).0)
  {
    var ms := [Member("ann", true), Member("bob", false)];
    var db := Db(map["g:1" := Group("one", "", "ann")], map["g:1" := ms]);
    var r := ChangeMembers("g:1", [], ["ann"]);
    assert "g:" <= "g:1";
    assert ms[1..] == [Member("bob", false)] && ms[1..][1..] == [];
    assert Admins(ms) == 1 && GroupOk(ms);
    assert Expel(ms[1..], "ann") == [Member("bob", false)];
    assert Expel(ms, "ann") == [Member("bob", false)];
    var after := ApplyAs(db, {}, "bob", r, true).0;
    assert JoinAll(ms, {}, [], 0, None) == ms;
    assert ExpelAll(ms, "bob", ["ann"], 1) == Expel(ms, "ann") by {
      assert ExpelAll(ms, "bob", ["ann"], 0) == ms;
    }
    assert after.members["g:1"] == [Member("bob", false)];
    assert Admins([Member("bob", false)]) == 0;
    assert !GroupOk(after.members["g:1"]);
    assert !DbOk(after);
  }

  // ── The handlers, with their cache ──────────────────────────────────────

  ghost predicate CacheOk(db: Db, cache: map<string, Cached>) {
    forall gid | gid in cache :: gid in db.groups && gid in db.members && cache[gid].roles == Roles(db.members[gid])
  }

  ghost predicate NamesOk(db: Db, cache: map<string, Cached>) {
    forall gid | gid in cache :: gid in db.groups && cache[gid].name == db.groups[gid].name
  }

  /** A rename that takes effect although the request fails on its description. */
  predicate HalfDone(db: Db, me: string, r: Request) {
    && r.Update? && IsGroup(r.gid) && IsAdminOf(db, r.gid, me)
    && r.newName.Some? && r.newDescription.Some?
    && var name := Text.TrimSpace(r.newName.value);
       && ValidName(name) && !NameTaken(db, name, r.gid) && name != db.groups[r.gid].name
       && |Text.TrimSpace(r.newDescription.value)| > MAX_DESCRIPTION_RUNES
  }

  class GroupServer {
    var db: Db
    var cache: map<string, Cached>

    constructor (db: Db)
      requires DbOk(db)
      ensures Valid() && this.db == db && NamesOk(db, cache)
    {
      this.db, cache := db, map[];
    }

    /** Every cached roles map equals the group_members rows. */
    ghost predicate Valid()
      reads this
    {
      DbOk(db) && CacheOk(db, cache)
    }

    method LoadGroup(gid: string) returns (g: Option<Cached>)
      requires Valid()
      modifies this`cache
      ensures Valid() && (NamesOk(db, old(cache)) ==> NamesOk(db, cache))
      ensures g.Some? <==> gid in db.groups
      ensures g.Some? ==> g.value.roles == Roles(db.members[gid]) && cache == old(cache)[gid := g.value]
      ensures g.None? ==> cache == old(cache)
    {
      if gid in cache {
        assert cache == cache[gid := cache[gid]];
        return Some(cache[gid]);
      }
      if gid !in db.groups {
        return None;
      }
      var rows := db.members[gid];
      var roles: map<string, bool> := map[];
      for k := 0 to |rows|
        invariant roles == Roles(rows[..k])
      {
        assert rows[..k + 1][..k] == rows[..k];
        roles := roles[rows[k].user := rows[k].admin];
      }
      assert rows[..|rows|] == rows;
      var loaded := Cached(db.groups[gid].name, roles);
      cache := cache[gid := loaded];
      g := Some(loaded);
    }

    method InvalidateGroup(gid: string)
      modifies this`cache
      ensures cache == old(cache) - {gid}
    {
      cache := cache - {gid};
    }

    /** Forget the entry, read it again, and tell its members. */
    method NotifyGroup(gid: string) returns (told: set<string>)
      requires DbOk(db) && CacheOk(db, cache - {gid})
      modifies this`cache
      ensures Valid() && (NamesOk(db, old(cache) - {gid}) ==> NamesOk(db, cache))
      ensures forall u :: u in told <==> gid in db.groups && IsMember(db.members[gid], u)
    {
      InvalidateGroup(gid);
      var g := LoadGroup(gid);
      told := if g.Some? then g.value.roles.Keys else {};
      if gid in db.groups {
        assert GroupOk(db.members[gid]);
        RolesAre(db.members[gid]);
      }
    }

    method IsGroupMember(gid: string, user: string) returns (yes: bool)
      requires Valid()
      modifies this`cache
      ensures Valid() && (NamesOk(db, old(cache)) ==> NamesOk(db, cache))
      ensures yes <==> gid in db.groups && IsMember(db.members[gid], user)
    {
      var g := LoadGroup(gid);
      yes := g.Some? && user in g.value.roles;
      if gid in db.groups {
        assert GroupOk(db.members[gid]);
        RolesAre(db.members[gid]);
      }
    }

    method IsGroupAdmin(gid: string, user: string) returns (yes: bool)
      requires Valid()
      modifies this`cache
      ensures Valid() && (NamesOk(db, old(cache)) ==> NamesOk(db, cache)) && (yes ==> gid in cache)
      ensures yes <==> IsAdminOf(db, gid, user)
    {
      var g := LoadGroup(gid);
      yes := g.Some? && user in g.value.roles && g.value.roles[user];
      if gid in db.groups {
        assert GroupOk(db.members[gid]);
        RoleIs(db.members[gid], user);
      }
    }

    /** The loop over those to be added: one INSERT for each who exists. */
    method AddPeople(gid: string, users: set<string>, people: seq<string>, except: Option<string>)
      requires gid in db.members
      modifies this`db
      ensures db == WithMembers(old(db), gid, JoinAll(old(db).members[gid], users, people, |people|, except))
    {
      hide Join;
      assert db.members[gid := db.members[gid]] == db.members;
      for n := 0 to |people|
        invariant db == WithMembers(old(db), gid, JoinAll(old(db).members[gid], users, people, n, except))
      {
        if except != Some(people[n]) && people[n] in users {
          db := WithMembers(db, gid, Join(db.members[gid], people[n]));
        }
      }
    }

    /** The loop over those to be removed: one DELETE for each but oneself. */
    method RemovePeople(gid: string, me: string, people: seq<string>)
      requires gid in db.members
      modifies this`db
      ensures db == WithMembers(old(db), gid, ExpelAll(old(db).members[gid], me, people, |people|))
    {
      hide Expel;
      assert db.members[gid := db.members[gid]] == db.members;
      for n := 0 to |people|
        invariant db == WithMembers(old(db), gid, ExpelAll(old(db).members[gid], me, people, n))
      {
        if people[n] == me {
          continue;
        }
        db := WithMembers(db, gid, Expel(db.members[gid], people[n]));
      }
    }

    method CreateGroup(me: string, users: set<string>, rawName: string, people: seq<string>, limited: bool,
                       newId: string)
      returns (status: Status)
      requires Valid()
      modifies this
      ensures Valid() && (NamesOk(old(db), old(cache)) ==> NamesOk(db, cache))
      ensures (db, status) == Apply(old(db), users, me, Create(rawName, people, limited, newId))
    {
      hide GroupOk, Roles;
      ApplyKeeps(db, users, me, Create(rawName, people, limited, newId));
      var name := Text.TrimSpace(rawName);
      if !ValidName(name) {
        return BadRequest;
      }
      if |people| > MAX_GROUP_MEMBERS - 1 {
        return Conflict;
      }
      if limited {
        return TooMany;
      }
      if NameTaken(db, name, "") {
        return Conflict;
      }
      if newId in db.groups {
        return ServerError;
      }
      db := db.(groups := db.groups[newId := Group(name, "", me)]);
      db := WithMembers(db, newId, [Member(me, true)]);
      ghost var made := db.(members := old(db).members);
      AddPeople(newId, users, people, Some(me));
      Overwrite(made, newId, [Member(me, true)], db.members[newId]);
      var _ := NotifyGroup(newId);
      status := Done;
    }

    method ChangeGroupMembers(me: string, users: set<string>, gid: string, add: seq<string>, remove: seq<string>)
      returns (status: Status)
      requires Valid()
      modifies this
      ensures Valid() && (NamesOk(old(db), old(cache)) ==> NamesOk(db, cache))
      ensures (db, status) == Apply(old(db), users, me, ChangeMembers(gid, add, remove))
    {
      hide GroupOk, Roles, Admins;
      ApplyKeeps(db, users, me, ChangeMembers(gid, add, remove));
      if !IsGroup(gid) {
        return BadRequest;
      }
      var admin := IsGroupAdmin(gid, me);
      if !admin {
        return Forbidden;
      }
      if |add| > 0 {
        var current := |db.members[gid]|;
        if current + |add| > MAX_GROUP_MEMBERS {
          return Conflict;
        }
      }
      ghost var before := db;
      AddPeople(gid, users, add, None);
      ghost var joined := db.members[gid];
      RemovePeople(gid, me, remove);
      Overwrite(before, gid, joined, db.members[gid]);
      var _ := NotifyGroup(gid);
      status := Done;
    }

    method ChangeGroupRole(me: string, users: set<string>, gid: string, user: string,
                           admin: bool) returns (status: Status)
      requires Valid()
      modifies this
      ensures Valid() && (NamesOk(old(db), old(cache)) ==> NamesOk(db, cache))
      ensures (db, status) == Apply(old(db), users, me, ChangeRole(gid, user, admin))
    {
      hide GroupOk, Roles, Admins;
      ApplyKeeps(db, users, me, ChangeRole(gid, user, admin));
      var allowed := IsGroupAdmin(gid, me);
      if !allowed {
        return Forbidden;
      }
      if user == me && !admin {
        var admins := Admins(db.members[gid]);
        if admins < 2 {
          return Conflict;
        }
      }
      db := WithMembers(db, gid, SetRole(db.members[gid], user, admin));
      var _ := NotifyGroup(gid);
      status := Done;
    }

    method LeaveGroup(me: string, users: set<string>, gid: string) returns (status: Status)
      requires Valid()
      modifies this
      ensures Valid() && (NamesOk(old(db), old(cache)) ==> NamesOk(db, cache))
      ensures (db, status) == Apply(old(db), users, me, Leave(gid))
    {
      hide GroupOk, Roles, Admins;
      ApplyKeeps(db, users, me, Leave(gid));
      var member := IsGroupMember(gid, me);
      if !member {
        return Forbidden;
      }
      ghost var before := db;
      db := WithMembers(db, gid, Expel(db.members[gid], me));
      var members := |db.members[gid]|;
      if members == 0 {
        Forgotten(before, gid, db.members[gid]);
        db := Without(db, gid);
        InvalidateGroup(gid);
        return Done;
      }
      var admins := Admins(db.members[gid]);
      if admins == 0 {
        Overwrite(before, gid, db.members[gid], PromoteOldest(db.members[gid]));
        db := WithMembers(db, gid, PromoteOldest(db.members[gid]));
      }
      var _ := NotifyGroup(gid);
      status := Done;
    }

    method DeleteGroup(me: string, users: set<string>, gid: string) returns (status: Status)
      requires Valid()
      modifies this
      ensures Valid() && (NamesOk(old(db), old(cache)) ==> NamesOk(db, cache))
      ensures (db, status) == Apply(old(db), users, me, Delete(gid))
    {
      hide GroupOk, Roles;
      if !IsGroup(gid) {
        return BadRequest;
      }
      var allowed := IsGroupAdmin(gid, me);
      if !allowed {
        return Forbidden;
      }
      var _ := NotifyGroup(gid);
      db := db.(members := db.members - {gid});
      db := db.(groups := db.groups - {gid});
      InvalidateGroup(gid);
      status := Done;
    }

    /** Roles stay cached faithfully; the name goes stale exactly when a rename is followed by a refused description. */
    method UpdateGroup(me: string, users: set<string>, gid: string, newName: Option<string>,
                       newDescription: Option<string>)
      returns (status: Status)
      requires Valid()
      modifies this
      ensures Valid()
      ensures (db, status) == Apply(old(db), users, me, Update(gid, newName, newDescription))
      ensures NamesOk(old(db), old(cache)) ==>
                (NamesOk(db, cache) <==> !HalfDone(old(db), me, Update(gid, newName, newDescription)))
    {
      hide GroupOk, Roles, NameTaken, ValidName, Text.TrimSpace;
      if !IsGroup(gid) {
        return BadRequest;
      }
      var allowed := IsGroupAdmin(gid, me);
      if !allowed {
        return Forbidden;
      }
      if newName == None && newDescription == None {
        return BadRequest;
      }
      if newName.Some? {
        var name := Text.TrimSpace(newName.value);
        if !ValidName(name) {
          return BadRequest;
        }
        if NameTaken(db, name, gid) {
          return Conflict;
        }
        db := Described(db, gid, db.groups[gid].(name := name));
      }
      if newDescription.Some? {
        var text := Text.TrimSpace(newDescription.value);
        if |text| > MAX_DESCRIPTION_RUNES {
          return BadRequest;
        }
        db := Described(db, gid, db.groups[gid].(description := text));
      }
      InvalidateGroup(gid);
      var _ := NotifyGroup(gid);
      status := Done;
    }
  }
}
