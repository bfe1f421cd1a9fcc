/** The `/api/auth/groups` route handlers. `GET` lists the signed-in user's
    groups with each group's expense total, member count and expense count.
    `POST` creates a group from the request body, filling in a default
    emoji and colour, records the caller as its creator, and adds the
    caller as its admin member. Both answer 401 without a session and 500
    when a request fails. */
module GroupsApi {
  import opened JsValues
  import BalanceView

  type UserId = string

  // ---------------------------------------------------------------------
  // GET

  /** A group row as the query returns it: the joined expenses' amounts and
      the joined memberships' roles, each of which may be missing. */
  datatype GroupRow = GroupRow(id: string, expenses: Option<seq<real>>, members: Option<seq<string>>)

  datatype GroupStats = GroupStats(id: string, total: real, memberCount: nat, expenseCount: nat)

  datatype ListResponse = ListUnauthorized | Listed(groups: seq<GroupStats>) | ListFailed

  /** The stats of one group whose expenses were returned. */
  function StatsOf(g: GroupRow): (s: GroupStats)
    requires g.expenses.Some?
    ensures s.id == g.id && s.total == BalanceView.Sum(g.expenses.value)
    ensures s.expenseCount == |g.expenses.value|
    ensures s.memberCount == if g.members.Some? then |g.members.value| else 0
  {
    GroupStats(g.id, BalanceView.Sum(g.expenses.value), if g.members.Some? then |g.members.value| else 0, |g.expenses.value|)
  }

  /** True when every group came back with its expenses. */
  predicate AllHaveExpenses(groups: seq<GroupRow>)
  {
    forall i :: 0 <= i < |groups| ==> groups[i].expenses.Some?
  }

  function AllStats(groups: seq<GroupRow>): (ss: seq<GroupStats>)
    requires AllHaveExpenses(groups)
    ensures |ss| == |groups|
    ensures forall i :: 0 <= i < |groups| ==> ss[i] == StatsOf(groups[i])
  {
    if |groups| == 0 then [] else AllStats(groups[..|groups| - 1]) + [StatsOf(groups[|groups| - 1])]
  }

  /** `GET`, given the session and the query's rows (`None` when it fails).
      The total is summed without a guard on the expense list, so a group
      without one makes the handler fail. */
  function ListGroups(session: Option<UserId>, rows: Option<seq<GroupRow>>): (r: ListResponse)
    ensures r == ListUnauthorized <==> session.None?
    ensures r.Listed? <==> session.Some? && rows.Some? && AllHaveExpenses(rows.value)
    ensures r.Listed? ==>
              && |r.groups| == |rows.value|
              && forall i :: 0 <= i < |rows.value| ==> r.groups[i] == StatsOf(rows.value[i])
  {
    if session.None? then ListUnauthorized
    else if rows.None? || !AllHaveExpenses(rows.value) then ListFailed
    else Listed(AllStats(rows.value))
  }

  /** The route's amounts as the dashboard's possibly missing ones, every
      one present. */
  function AllPresent(xs: seq<real>): (ys: seq<Option<real>>)
    ensures |ys| == |xs|
    ensures forall i :: 0 <= i < |xs| ==> ys[i] == Some(xs[i])
  {
    if |xs| == 0 then [] else AllPresent(xs[..|xs| - 1]) + [Some(xs[|xs| - 1])]
  }

  lemma {:induction false} PresentIsIdentity(xs: seq<real>)
    ensures BalanceView.Present(AllPresent(xs)) == xs
  {
    if |xs| > 0 {
      var front := xs[..|xs| - 1];
      PresentIsIdentity(front);
      assert AllPresent(xs)[..|xs| - 1] == AllPresent(front);
      assert xs == front + [xs[|xs| - 1]];
    }
  }

  /** The API and the dashboard agree on a group's total and expense count
      when every amount is present. */
  lemma AgreesWithDashboard(g: GroupRow)
    requires g.expenses.Some?
    ensures var card := BalanceView.GroupCardOf(Some(AllPresent(g.expenses.value)));
            StatsOf(g).total == card.total && StatsOf(g).expenseCount == card.expenseCount
  {
    PresentIsIdentity(g.expenses.value);
  }

  // ---------------------------------------------------------------------
  // POST

  /** The request body; a missing field is `None`. */
  datatype GroupBody = GroupBody(name: Option<string>, emoji: Option<string>, description: Option<string>, color: Option<string>)

  datatype GroupInsert = GroupInsert(name: Option<string>, emoji: string, description: Option<string>, color: string, createdBy: UserId)

  datatype Write =
    | InsertGroup(group: GroupInsert)
    | InsertMember(userId: UserId, groupId: string, role: string)

  datatype Fault = NoFault | GroupInsertFails | MemberInsertFails

  datatype CreateResponse = CreateUnauthorized | Created(groupId: string) | CreateFailed

  const DefaultColor := "from-purple-500 to-pink-500"

  /** The default emoji literal as the source file spells it: four
      characters, U+00F0 U+0178 U+2019 U+00B0. */
  const MisencodedMoneyBag := "\U{00F0}\U{0178}\U{2019}\U{00B0}"

  /** The money-bag emoji U+1F4B0, the default the dashboard's form uses. */
  const MoneyBag := "\U{1F4B0}"

  /** The emojis the dashboard's group form offers, in order. */
  const PickerEmojis: seq<string> :=
    ["\U{1F4B0}", "\U{1F3E0}", "\U{2708}\U{FE0F}", "\U{1F389}", "\U{1F355}", "\U{1F3AC}", "\U{1F393}", "\U{1F4BC}"]

  /** `POST` with the emoji used when the body has none. The group gets the
      id `newId` the database gives it. Without a session nothing is
      written; otherwise the group is inserted, then the caller as its
      admin, and a failure of either ends in 500 with whatever was already
      written kept. */
  function CreateGroupWith(defaultEmoji: string, session: Option<UserId>, body: GroupBody, newId: string, fault: Fault)
    : (r: (CreateResponse, seq<Write>))
    ensures r.0 == CreateUnauthorized <==> session.None?
    ensures session.None? ==> r.1 == []
    ensures session.Some? ==>
              && |r.1| >= 1
              && r.1[0] == InsertGroup(GroupInsert(body.name, OrElse(body.emoji, defaultEmoji), body.description,
                                                   OrElse(body.color, DefaultColor), session.value))
    ensures r.0.Created? <==> session.Some? && fault == NoFault
    ensures r.0.Created? ==> r.0.groupId == newId && |r.1| == 2 && r.1[1] == InsertMember(session.value, newId, "admin")
  {
    if session.None? then (CreateUnauthorized, [])
    else
      var group := InsertGroup(GroupInsert(body.name, OrElse(body.emoji, defaultEmoji), body.description,
                                           OrElse(body.color, DefaultColor), session.value));
      var member := InsertMember(session.value, newId, "admin");
      match fault
      case GroupInsertFails => (CreateFailed, [group])
      case MemberInsertFails => (CreateFailed, [group, member])
      case NoFault => (Created(newId), [group, member])
  }

  /** `POST` as written, with the misencoded default emoji. */
  function CreateGroupAsWritten(session: Option<UserId>, body: GroupBody, newId: string, fault: Fault)
    : (r: (CreateResponse, seq<Write>))
  {
    CreateGroupWith(MisencodedMoneyBag, session, body, newId, fault)
  }

  /** `POST` with the money-bag emoji as the default. */
  function CreateGroup(session: Option<UserId>, body: GroupBody, newId: string, fault: Fault)
    : (r: (CreateResponse, seq<Write>))
  {
    CreateGroupWith(MoneyBag, session, body, newId, fault)
  }

  // ---------------------------------------------------------------------
  // The default emoji's encoding

  /** The UTF-8 encoding of a code point (RFC 3629, section 3). */
  function Utf8(cp: nat): (bytes: seq<nat>)
    requires cp < 0x11_0000
    ensures 1 <= |bytes| <= 4
    ensures forall i :: 0 <= i < |bytes| ==> bytes[i] < 0x100
  {
    if cp < 0x80 then [cp]
    else if cp < 0x800 then [0xC0 + cp / 0x40, 0x80 + cp % 0x40]
    else if cp < 0x1_0000 then [0xE0 + cp / 0x1000, 0x80 + (cp / 0x40) % 0x40, 0x80 + cp % 0x40]
    else [0xF0 + cp / 0x4_0000, 0x80 + (cp / 0x1000) % 0x40, 0x80 + (cp / 0x40) % 0x40, 0x80 + cp % 0x40]
  }

  /** The characters Windows-1252 gives bytes 0x80 to 0x9F; -1 marks the
      five bytes it leaves unassigned. */
  const Cp1252High: seq<int> :=
    [0x20AC, -1, 0x201A, 0x0192, 0x201E, 0x2026, 0x2020, 0x2021,
     0x02C6, 0x2030, 0x0160, 0x2039, 0x0152, -1, 0x017D, -1,
     -1, 0x2018, 0x2019, 0x201C, 0x201D, 0x2022, 0x2013, 0x2014,
     0x02DC, 0x2122, 0x0161, 0x203A, 0x0153, -1, 0x017E, 0x0178]

  /** One byte read as Windows-1252 text; the unassigned bytes give `None`. */
  function Cp1252(b: nat): (c: Option<char>)
    requires b < 0x100
  {
    if b < 0x80 || b >= 0xA0 then Some(b as char)
    else if Cp1252High[b - 0x80] < 0 then None
    else Some(Cp1252High[b - 0x80] as char)
  }

  /** Bytes read as Windows-1252 text, when every byte is assigned. */
  function Cp1252Text(bytes: seq<nat>): Option<string>
    requires forall i :: 0 <= i < |bytes| ==> bytes[i] < 0x100
  {
    if |bytes| == 0 then Some("")
    else
      var front := Cp1252Text(bytes[..|bytes| - 1]);
      var last := Cp1252(bytes[|bytes| - 1]);
      if front.None? || last.None? then None else Some(front.value + [last.value])
  }

  /** Reading one more byte appends its character. */
  lemma Cp1252TextSnoc(front: seq<nat>, text: string, b: nat, c: char)
    requires forall i :: 0 <= i < |front| ==> front[i] < 0x100
    requires b < 0x100 && Cp1252Text(front) == Some(text) && Cp1252(b) == Some(c)
    ensures Cp1252Text(front + [b]) == Some(text + [c])
  {
    assert (front + [b])[..|front|] == front;
  }

  lemma Cp1252TextTwo(b0: nat, b1: nat, c0: char, c1: char)
    requires b0 < 0x100 && b1 < 0x100
    requires Cp1252(b0) == Some(c0) && Cp1252(b1) == Some(c1)
    ensures Cp1252Text([b0, b1]) == Some([c0, c1])
  {
    var empty: seq<nat> := [];
    assert Cp1252Text(empty) == Some("");
    Cp1252TextSnoc(empty, "", b0, c0);
    assert empty + [b0] == [b0] && "" + [c0] == [c0];
    Cp1252TextSnoc([b0], [c0], b1, c1);
    assert [b0] + [b1] == [b0, b1] && [c0] + [c1] == [c0, c1];
  }

  /** Four bytes read one by one. */
  lemma Cp1252TextFour(b0: nat, b1: nat, b2: nat, b3: nat, c0: char, c1: char, c2: char, c3: char)
    requires b0 < 0x100 && b1 < 0x100 && b2 < 0x100 && b3 < 0x100
    requires Cp1252(b0) == Some(c0) && Cp1252(b1) == Some(c1) && Cp1252(b2) == Some(c2) && Cp1252(b3) == Some(c3)
    ensures Cp1252Text([b0, b1, b2, b3]) == Some([c0, c1, c2, c3])
  {
    Cp1252TextTwo(b0, b1, c0, c1);
    Cp1252TextSnoc([b0, b1], [c0, c1], b2, c2);
    assert [b0, b1] + [b2] == [b0, b1, b2] && [c0, c1] + [c2] == [c0, c1, c2];
    Cp1252TextSnoc([b0, b1, b2], [c0, c1, c2], b3, c3);
    assert [b0, b1, b2] + [b3] == [b0, b1, b2, b3] && [c0, c1, c2] + [c3] == [c0, c1, c2, c3];
  }

  /** The default emoji as written is the money bag's UTF-8 bytes read as
      Windows-1252 text: a group created without an emoji is stored with
      four stray characters, which are not an emoji the dashboard offers. */
  lemma MisencodedDefault(userId: UserId, body: GroupBody, newId: string, fault: Fault)
    requires !Truthy(body.emoji)
    ensures Utf8(0x1F4B0) == [0xF0, 0x9F, 0x92, 0xB0]
    ensures Cp1252Text(Utf8(0x1F4B0)) == Some(MisencodedMoneyBag)
    ensures CreateGroupAsWritten(Some(userId), body, newId, fault).1[0].group.emoji == MisencodedMoneyBag
    ensures MisencodedMoneyBag !in PickerEmojis
  {
    var bytes := Utf8(0x1F4B0);
    assert bytes == [0xF0, 0x9F, 0x92, 0xB0];
    assert Cp1252(0xF0) == Some('\U{00F0}');
    assert Cp1252(0x9F) == Some('\U{0178}');
    assert Cp1252(0x92) == Some('\U{2019}');
    assert Cp1252(0xB0) == Some('\U{00B0}');
    Cp1252TextFour(0xF0, 0x9F, 0x92, 0xB0, '\U{00F0}', '\U{0178}', '\U{2019}', '\U{00B0}');
  }

  /** With the money bag as the default, a group created without an emoji
      gets the same emoji as one created from the dashboard, the first one
      its form offers. */
  lemma DefaultEmojiMatchesDashboard(userId: UserId, body: GroupBody, newId: string, fault: Fault)
    requires !Truthy(body.emoji)
    ensures CreateGroup(Some(userId), body, newId, fault).1[0].group.emoji == MoneyBag
    ensures MoneyBag == PickerEmojis[0] && |MoneyBag| == 1 && MoneyBag[0] as int == 0x1F4B0
  {
    assert MoneyBag[0] == '\U{1F4B0}';
  }
}
