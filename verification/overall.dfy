/** The viewer-relative balances across all groups, computed in two places:
    the `GET /api/balances` route handler and the `useBalances` hook. Both
    fold every split (other than a payer's own) into a `Map` keyed by the
    two user ids sorted and joined with '-', keeping a signed running total
    from the viewer's side: the viewer's own shares subtract, the shares of
    others on expenses the viewer paid add, and every other split leaves the
    total alone. Both overwrite the entry's direction labels on every split
    that involves the viewer. The route emits entries with a total above
    0.01 in absolute value, signed; the hook emits the absolute value. */
module OverallBalances {
  import opened JsValues
  import opened Strings
  import JsMap

  type UserId = string

  const Epsilon: real := 0.01

  /** A row of `expense_splits`. */
  datatype Split = Split(userId: UserId, amount: real)

  /** The payer's profile joined in by the hook's query. */
  datatype Profile = Profile(id: UserId, name: string)

  /** An expense with its splits; `paidBy` is the joined payer profile
      (absent when the join finds none). */
  datatype Expense = Expense(id: string, paidById: UserId, paidBy: Option<Profile>, splits: seq<Split>)

  /** One split together with the expense's payer, in visiting order. */
  datatype Contribution = Contribution(paidById: UserId, paidBy: Option<Profile>, userId: UserId, amount: real)

  function ExpenseContributions(e: Expense): (cs: seq<Contribution>)
    ensures |cs| == |e.splits|
    ensures forall i :: 0 <= i < |cs| ==>
              cs[i] == Contribution(e.paidById, e.paidBy, e.splits[i].userId, e.splits[i].amount)
  {
    seq(|e.splits|, i requires 0 <= i < |e.splits| =>
      Contribution(e.paidById, e.paidBy, e.splits[i].userId, e.splits[i].amount))
  }

  /** Every split of every expense, expense by expense. */
  function Contributions(es: seq<Expense>): seq<Contribution>
  {
    if |es| == 0 then [] else Contributions(es[..|es| - 1]) + ExpenseContributions(es[|es| - 1])
  }

  // ---------------------------------------------------------------------
  // The pair key

  /** `[a, b].sort()`. */
  function SortPair(a: UserId, b: UserId): (p: seq<UserId>)
    ensures |p| == 2
    ensures (p[0] == a && p[1] == b) || (p[0] == b && p[1] == a)
    ensures !LexLess(p[1], p[0])
  {
    LexTrichotomy(a, b);
    if LexLess(b, a) then [b, a] else [a, b]
  }

  /** `[a, b].sort().join('-')`. */
  function PairKey(a: UserId, b: UserId): string
  {
    Join(SortPair(a, b), '-')
  }

  /** The key does not depend on the order of the two ids. */
  lemma PairKeySymmetric(a: UserId, b: UserId)
    ensures PairKey(a, b) == PairKey(b, a)
  {
    LexTrichotomy(a, b);
  }

  predicate HyphenFree(id: UserId)
  {
    '-' !in id
  }

  /** Keys of hyphen-free ids coincide only for the same unordered pair. */
  lemma PairKeyInjective(a: UserId, b: UserId, x: UserId, y: UserId)
    requires HyphenFree(a) && HyphenFree(b) && HyphenFree(x) && HyphenFree(y)
    ensures PairKey(a, b) == PairKey(x, y) <==> (a == x && b == y) || (a == y && b == x)
  {
    var p, q := SortPair(a, b), SortPair(x, y);
    if PairKey(a, b) == PairKey(x, y) {
      SplitJoin(p, '-');
      SplitJoin(q, '-');
    } else {
      PairKeySymmetric(a, b);
    }
  }

  /** The key tells apart the unordered pairs of the given ids. */
  ghost predicate PairKeysDistinct(ids: set<UserId>)
  {
    forall a, b, x, y :: a in ids && b in ids && x in ids && y in ids && PairKey(a, b) == PairKey(x, y) ==>
      (a == x && b == y) || (a == y && b == x)
  }

  /** Among ids that the key tells apart, two keys coincide exactly for the
      same unordered pair. */
  lemma SameKeyIff(ids: set<UserId>, a: UserId, b: UserId, x: UserId, y: UserId)
    requires PairKeysDistinct(ids)
    requires a in ids && b in ids && x in ids && y in ids
    ensures PairKey(a, b) == PairKey(x, y) <==> (a == x && b == y) || (a == y && b == x)
  {
    PairKeySymmetric(a, b);
  }

  /** Ids without '-' are told apart. */
  lemma HyphenFreeKeysDistinct(ids: set<UserId>)
    requires forall id :: id in ids ==> HyphenFree(id)
    ensures PairKeysDistinct(ids)
  {
    forall a, b, x, y | a in ids && b in ids && x in ids && y in ids && PairKey(a, b) == PairKey(x, y)
      ensures (a == x && b == y) || (a == y && b == x)
    {
      PairKeyInjective(a, b, x, y);
    }
  }

  /** Ids of one common length, such as UUIDs, are told apart whatever
      characters they hold: the key's first `n` characters are the smaller
      id and its last `n` the larger. */
  lemma SameLengthKeysDistinct(ids: set<UserId>, n: nat)
    requires forall id :: id in ids ==> |id| == n
    ensures PairKeysDistinct(ids)
  {
    forall a, b, x, y | a in ids && b in ids && x in ids && y in ids && PairKey(a, b) == PairKey(x, y)
      ensures (a == x && b == y) || (a == y && b == x)
    {
      var p, q := SortPair(a, b), SortPair(x, y);
      var k := PairKey(a, b);
      JoinPair(p);
      JoinPair(q);
      assert p[0] == k[..n] == q[0];
      assert p[1] == k[n + 1..] == q[1];
    }
  }

  lemma JoinPair(p: seq<UserId>)
    requires |p| == 2
    ensures Join(p, '-') == p[0] + ['-'] + p[1]
  {
    assert p[1..] == [p[1]];
  }

  // ---------------------------------------------------------------------
  // The route handler's fold

  /** The route's map entry: the signed total and the direction labels. */
  datatype RouteEntry = RouteEntry(amount: real, from: UserId, to: UserId)

  /** `balanceMap.get(key) || { amount: 0, from: '', to: '' }`. */
  function RouteAt(m: JsMap.OrderedMap<string, RouteEntry>, key: string): RouteEntry
  {
    if key in m.values then m.values[key] else RouteEntry(0.0, "", "")
  }

  /** One split folded into the route's map. */
  function RouteStep(m: JsMap.OrderedMap<string, RouteEntry>, viewer: UserId, c: Contribution)
    : (r: JsMap.OrderedMap<string, RouteEntry>)
    requires JsMap.Valid(m)
    ensures JsMap.Valid(r)
    ensures c.userId == c.paidById ==> r == m
    ensures forall k :: k != PairKey(c.userId, c.paidById) ==> (k in r.values <==> k in m.values) && RouteAt(r, k) == RouteAt(m, k)
  {
    if c.userId == c.paidById then m
    else
      var key := PairKey(c.userId, c.paidById);
      var current := RouteAt(m, key);
      var next :=
        if c.userId == viewer then RouteEntry(current.amount - c.amount, viewer, c.paidById)
        else if c.paidById == viewer then RouteEntry(current.amount + c.amount, c.userId, viewer)
        else current;
      JsMap.Set(m, key, next)
  }

  /** The route's map after every split. */
  function RouteNet(cs: seq<Contribution>, viewer: UserId): (m: JsMap.OrderedMap<string, RouteEntry>)
    ensures JsMap.Valid(m)
  {
    if |cs| == 0 then JsMap.Empty() else RouteStep(RouteNet(cs[..|cs| - 1], viewer), viewer, cs[|cs| - 1])
  }

  /** The contribution a split makes to what `other` owes the viewer. */
  function Signed(c: Contribution, viewer: UserId, other: UserId): real
  {
    if c.paidById == viewer && c.userId == other then c.amount
    else if c.userId == viewer && c.paidById == other then -c.amount
    else 0.0
  }

  /** What `other` owes the viewer: their shares on expenses the viewer paid
      minus the viewer's shares on expenses they paid. */
  function ViewerNet(cs: seq<Contribution>, viewer: UserId, other: UserId): real
  {
    if |cs| == 0 then 0.0 else ViewerNet(cs[..|cs| - 1], viewer, other) + Signed(cs[|cs| - 1], viewer, other)
  }

  /** Every id of the splits, as member or as payer. */
  function SplitIds(cs: seq<Contribution>): set<UserId>
  {
    if |cs| == 0 then {} else SplitIds(cs[..|cs| - 1]) + {cs[|cs| - 1].userId, cs[|cs| - 1].paidById}
  }

  /** The route's total for the pair of the viewer and `other` is what
      `other` owes the viewer, when the key tells the ids present apart. */
  lemma {:induction false} RouteAmountIsViewerNet(cs: seq<Contribution>, viewer: UserId, other: UserId)
    requires viewer != other
    requires PairKeysDistinct(SplitIds(cs) + {viewer, other})
    ensures RouteAt(RouteNet(cs, viewer), PairKey(viewer, other)).amount == ViewerNet(cs, viewer, other)
  {
    if |cs| > 0 {
      var init, c := cs[..|cs| - 1], cs[|cs| - 1];
      var ids := SplitIds(cs) + {viewer, other};
      assert SplitIds(init) + {viewer, other} <= ids;
      RouteAmountIsViewerNet(init, viewer, other);
      SameKeyIff(ids, c.userId, c.paidById, viewer, other);
    }
  }

  /** An entry is either the untouched default or carries the viewer as one
      of its labels. */
  ghost predicate LabelsInvolveViewer(m: JsMap.OrderedMap<string, RouteEntry>, viewer: UserId)
  {
    forall k :: k in m.values ==>
      m.values[k] == RouteEntry(0.0, "", "") || m.values[k].from == viewer || m.values[k].to == viewer
  }

  /** A split that involves neither the viewer as member nor the viewer as
      payer leaves its entry as it was, so every entry other than an
      untouched default is labelled with the viewer. */
  lemma {:induction false} RouteLabelsInvolveViewer(cs: seq<Contribution>, viewer: UserId)
    ensures LabelsInvolveViewer(RouteNet(cs, viewer), viewer)
  {
    if |cs| > 0 {
      RouteLabelsInvolveViewer(cs[..|cs| - 1], viewer);
    }
  }

  /** A pair of two other users has total 0, so it is never emitted, when
      the key tells the ids present apart. */
  lemma {:induction false} BystanderPairIsZero(cs: seq<Contribution>, viewer: UserId, x: UserId, y: UserId)
    requires x != viewer && y != viewer && x != y
    requires PairKeysDistinct(SplitIds(cs) + {viewer, x, y})
    ensures RouteAt(RouteNet(cs, viewer), PairKey(x, y)).amount == 0.0
  {
    if |cs| > 0 {
      var init, c := cs[..|cs| - 1], cs[|cs| - 1];
      var ids := SplitIds(cs) + {viewer, x, y};
      assert SplitIds(init) + {viewer, x, y} <= ids;
      BystanderPairIsZero(init, viewer, x, y);
      SameKeyIff(ids, c.userId, c.paidById, x, y);
    }
  }

  /** The labels of the last split of `key` that involves the viewer, if
      any: every such split overwrites them, whatever the sign of the total. */
  function LastLabels(cs: seq<Contribution>, viewer: UserId, key: string): Option<(UserId, UserId)>
  {
    if |cs| == 0 then None
    else
      var c := cs[|cs| - 1];
      if c.userId != c.paidById && PairKey(c.userId, c.paidById) == key && c.userId == viewer then
        Some((viewer, c.paidById))
      else if c.userId != c.paidById && PairKey(c.userId, c.paidById) == key && c.paidById == viewer then
        Some((c.userId, viewer))
      else LastLabels(cs[..|cs| - 1], viewer, key)
  }

  /** An entry's labels are those of the last split of its key that
      involves the viewer, or the empty defaults when there is none. */
  lemma {:induction false} RouteLabelsFromLastSplit(cs: seq<Contribution>, viewer: UserId, key: string)
    ensures var e := RouteAt(RouteNet(cs, viewer), key);
            match LastLabels(cs, viewer, key)
            case None => e.from == "" && e.to == ""
            case Some(l) => (e.from, e.to) == l
  {
    if |cs| > 0 {
      RouteLabelsFromLastSplit(cs[..|cs| - 1], viewer, key);
    }
  }

  /** `Array.from(balanceMap.values()).filter(b => Math.abs(b.amount) > 0.01)`. */
  function Significant<E(!new)>(keys: seq<string>, values: map<string, E>, amount: E -> real): (es: seq<E>)
    requires forall k :: k in keys ==> k in values
    ensures forall e :: e in es <==> exists k :: k in keys && values[k] == e && Abs(amount(e)) > Epsilon
  {
    if |keys| == 0 then []
    else
      var k := keys[|keys| - 1];
      var rest := Significant(keys[..|keys| - 1], values, amount);
      assert forall x :: x in keys <==> x in keys[..|keys| - 1] || x == k;
      if Abs(amount(values[k])) > Epsilon then rest + [values[k]] else rest
  }

  function Abs(x: real): real
  {
    if x < 0.0 then -x else x
  }

  function RouteAmount(e: RouteEntry): real
  {
    e.amount
  }

  /** `e` is the entry of some key of `m`, and its signed total is above
      the threshold in absolute value. */
  ghost predicate SignificantEntry(m: JsMap.OrderedMap<string, RouteEntry>, e: RouteEntry)
  {
    exists k :: k in m.values && m.values[k] == e && Abs(e.amount) > Epsilon
  }

  function RouteBalances(cs: seq<Contribution>, viewer: UserId): (es: seq<RouteEntry>)
  {
    var m := RouteNet(cs, viewer);
    Significant(m.keys, m.values, RouteAmount)
  }

  /** The route's entries: exactly the map's entries whose signed total is
      above the threshold in absolute value, each labelled with the viewer. */
  lemma RouteBalancesEntries(cs: seq<Contribution>, viewer: UserId)
    ensures forall e :: e in RouteBalances(cs, viewer) <==> SignificantEntry(RouteNet(cs, viewer), e)
    ensures forall e :: e in RouteBalances(cs, viewer) ==> e.from == viewer || e.to == viewer
  {
    var m := RouteNet(cs, viewer);
    var es := RouteBalances(cs, viewer);
    assert es == Significant(m.keys, m.values, RouteAmount);
    forall e
      ensures e in es <==> SignificantEntry(m, e)
    {
      if e in es {
        var k :| k in m.keys && m.values[k] == e && Abs(RouteAmount(e)) > Epsilon;
        assert k in m.values;
      }
      if exists k :: k in m.values && m.values[k] == e && Abs(e.amount) > Epsilon {
        var k :| k in m.values && m.values[k] == e && Abs(e.amount) > Epsilon;
        assert k in m.keys && Abs(RouteAmount(e)) > Epsilon;
      }
    }
    forall e | e in es
      ensures e.from == viewer || e.to == viewer
    {
      RouteLabelsInvolveViewer(cs, viewer);
      var k :| k in m.keys && m.values[k] == e && Abs(RouteAmount(e)) > Epsilon;
      assert k in m.values;
    }
  }

  /** The route handler's responses. The body of the group branch comes from
      a database function and is not modelled. */
  datatype RouteResponse =
    | Unauthorized                           // 401
    | GroupBalances(groupId: string)         // the `calculate_group_balances` result
    | OverallBalances(balances: seq<RouteEntry>)
    | ServerError                            // 500

  /** `GET /api/balances`: 401 without a session; a non-empty `groupId`
      query parameter selects the group branch; otherwise the overall
      entries, or 500 when the query fails. */
  function RouteGet(session: Option<UserId>, groupId: Option<string>, expenses: seq<Expense>, queryFails: bool)
    : (r: RouteResponse)
    ensures session.None? <==> r == Unauthorized
    ensures session.Some? && Truthy(groupId) ==> r == GroupBalances(groupId.value)
    ensures session.Some? && !Truthy(groupId) ==>
              r == (if queryFails then ServerError else OverallBalances(RouteBalances(Contributions(expenses), session.value)))
  {
    if session.None? then Unauthorized
    else if Truthy(groupId) then GroupBalances(groupId.value)
    else if queryFails then ServerError
    else OverallBalances(RouteBalances(Contributions(expenses), session.value))
  }

  // ---------------------------------------------------------------------
  // The hook's fold

  /** What the hook stores in a label: the viewer's id, or the payer's
      joined profile object. */
  datatype Party = UserRef(id: UserId) | ProfileRef(profile: Option<Profile>)

  datatype Kind = YouOwe | OwesYou

  /** The hook's map entry: the signed total, the labels, and the `type`
      (absent until a split involving the viewer sets it). */
  datatype HookEntry = HookEntry(amount: real, fromUser: Option<Party>, toUser: Option<Party>, kind: Option<Kind>)

  function HookAt(m: JsMap.OrderedMap<string, HookEntry>, key: string): HookEntry
  {
    if key in m.values then m.values[key] else HookEntry(0.0, None, None, None)
  }

  /** One split folded into the hook's map. */
  function HookStep(m: JsMap.OrderedMap<string, HookEntry>, viewer: UserId, c: Contribution)
    : (r: JsMap.OrderedMap<string, HookEntry>)
    requires JsMap.Valid(m)
    ensures JsMap.Valid(r)
    ensures c.userId == c.paidById ==> r == m
    ensures forall k :: k != PairKey(c.userId, c.paidById) ==> (k in r.values <==> k in m.values) && HookAt(r, k) == HookAt(m, k)
  {
    if c.userId == c.paidById then m
    else
      var key := PairKey(c.userId, c.paidById);
      var current := HookAt(m, key);
      var next :=
        if c.userId == viewer then
          HookEntry(current.amount - c.amount, Some(UserRef(viewer)), Some(ProfileRef(c.paidBy)), Some(YouOwe))
        else if c.paidById == viewer then
          HookEntry(current.amount + c.amount, Some(ProfileRef(c.paidBy)), Some(UserRef(viewer)), Some(OwesYou))
        else current;
      JsMap.Set(m, key, next)
  }

  function HookNet(cs: seq<Contribution>, viewer: UserId): (m: JsMap.OrderedMap<string, HookEntry>)
    ensures JsMap.Valid(m)
  {
    if |cs| == 0 then JsMap.Empty() else HookStep(HookNet(cs[..|cs| - 1], viewer), viewer, cs[|cs| - 1])
  }

  /** Same keys in the same order, and the same total under each key. */
  ghost predicate SameTotals(h: JsMap.OrderedMap<string, HookEntry>, r: JsMap.OrderedMap<string, RouteEntry>)
  {
    && h.keys == r.keys
    && h.values.Keys == r.values.Keys
    && forall k :: k in r.values ==> h.values[k].amount == r.values[k].amount
  }

  lemma StepsKeepSameTotals(h: JsMap.OrderedMap<string, HookEntry>, r: JsMap.OrderedMap<string, RouteEntry>, viewer: UserId, c: Contribution)
    requires JsMap.Valid(h) && JsMap.Valid(r)
    requires SameTotals(h, r)
    ensures SameTotals(HookStep(h, viewer, c), RouteStep(r, viewer, c))
  {
    if c.userId != c.paidById {
      var key := PairKey(c.userId, c.paidById);
      var h', r' := HookStep(h, viewer, c), RouteStep(r, viewer, c);
      assert h' == JsMap.Set(h, key, h'.values[key]);
      assert r' == JsMap.Set(r, key, r'.values[key]);
      StepAmountsAgree(h, r, viewer, c);
      SetKeepsSameTotals(h, r, key, h'.values[key], r'.values[key]);
    }
  }

  /** Both steps give the split's key the same new total. */
  lemma StepAmountsAgree(h: JsMap.OrderedMap<string, HookEntry>, r: JsMap.OrderedMap<string, RouteEntry>, viewer: UserId, c: Contribution)
    requires JsMap.Valid(h) && JsMap.Valid(r)
    requires SameTotals(h, r) && c.userId != c.paidById
    ensures var key := PairKey(c.userId, c.paidById);
            HookStep(h, viewer, c).values[key].amount == RouteStep(r, viewer, c).values[key].amount
  {
    var key := PairKey(c.userId, c.paidById);
    assert HookAt(h, key).amount == RouteAt(r, key).amount;
  }

  /** Setting one key to entries with equal totals keeps the totals equal. */
  lemma SetKeepsSameTotals(h: JsMap.OrderedMap<string, HookEntry>, r: JsMap.OrderedMap<string, RouteEntry>, key: string,
                           hv: HookEntry, rv: RouteEntry)
    requires JsMap.Valid(h) && JsMap.Valid(r)
    requires SameTotals(h, r) && hv.amount == rv.amount
    ensures SameTotals(JsMap.Set(h, key, hv), JsMap.Set(r, key, rv))
  {
  }

  /** The hook and the route keep the same keys, in the same order, with the
      same signed totals. */
  lemma {:induction false} HookAgreesWithRoute(cs: seq<Contribution>, viewer: UserId)
    ensures SameTotals(HookNet(cs, viewer), RouteNet(cs, viewer))
  {
    if |cs| > 0 {
      HookAgreesWithRoute(cs[..|cs| - 1], viewer);
      StepsKeepSameTotals(HookNet(cs[..|cs| - 1], viewer), RouteNet(cs[..|cs| - 1], viewer), viewer, cs[|cs| - 1]);
    }
  }

  /** The `type` is the one set by the last split of the key that involves
      the viewer, whatever the sign of the total. */
  lemma {:induction false} HookKindFromLastSplit(cs: seq<Contribution>, viewer: UserId, key: string)
    ensures var e := HookAt(HookNet(cs, viewer), key);
            match LastLabels(cs, viewer, key)
            case None => e.kind.None?
            case Some(l) => e.kind == Some(if l.0 == viewer then YouOwe else OwesYou)
  {
    if |cs| > 0 {
      HookKindFromLastSplit(cs[..|cs| - 1], viewer, key);
    }
  }

  function HookAmount(e: HookEntry): real
  {
    e.amount
  }

  /** `.filter(b => Math.abs(b.amount) > 0.01).map(b => ({ ...b, amount: Math.abs(b.amount) }))`. */
  function Absolute(es: seq<HookEntry>): (r: seq<HookEntry>)
    ensures |r| == |es|
    ensures forall i :: 0 <= i < |es| ==> r[i] == es[i].(amount := Abs(es[i].amount))
  {
    seq(|es|, i requires 0 <= i < |es| => es[i].(amount := Abs(es[i].amount)))
  }

  /** `e` is the entry of some key of `m` whose signed total is above the
      threshold in absolute value, with the amount made absolute. */
  ghost predicate AbsoluteEntry(m: JsMap.OrderedMap<string, HookEntry>, e: HookEntry)
  {
    exists k :: k in m.values && Abs(m.values[k].amount) > Epsilon && e == m.values[k].(amount := Abs(m.values[k].amount))
  }

  function HookBalances(cs: seq<Contribution>, viewer: UserId): (es: seq<HookEntry>)
  {
    var m := HookNet(cs, viewer);
    Absolute(Significant(m.keys, m.values, HookAmount))
  }

  /** The hook's entries: one per map entry whose signed total is above the
      threshold in absolute value, carrying that absolute value and the
      entry's labels and `type`. */
  lemma HookBalancesEntries(cs: seq<Contribution>, viewer: UserId)
    ensures forall e :: e in HookBalances(cs, viewer) <==> AbsoluteEntry(HookNet(cs, viewer), e)
    ensures forall e :: e in HookBalances(cs, viewer) ==> e.amount > Epsilon
  {
    var m := HookNet(cs, viewer);
    var kept := Significant(m.keys, m.values, HookAmount);
    var r := HookBalances(cs, viewer);
    assert r == Absolute(kept);
    forall e | e in r
      ensures AbsoluteEntry(m, e) && e.amount > Epsilon
    {
      var i :| 0 <= i < |r| && r[i] == e;
      assert kept[i] in kept;
      var k :| k in m.keys && m.values[k] == kept[i] && Abs(HookAmount(kept[i])) > Epsilon;
      assert k in m.values;
    }
    forall e | AbsoluteEntry(m, e)
      ensures e in r
    {
      var k :| k in m.values && Abs(m.values[k].amount) > Epsilon && e == m.values[k].(amount := Abs(m.values[k].amount));
      assert k in m.keys && Abs(HookAmount(m.values[k])) > Epsilon;
      assert m.values[k] in kept;
      var i :| 0 <= i < |kept| && kept[i] == m.values[k];
      assert r[i] == e;
    }
  }

  /** The hook's outcomes: the error message it stores, the group branch's
      database function result (not modelled), or the overall entries. */
  datatype HookState = HookError(message: string) | GroupRows(groupId: string) | OverallRows(balances: seq<HookEntry>)

  /** `fetchBalances` with an optional `groupId`. */
  function FetchBalances(session: Option<UserId>, groupId: Option<string>, expenses: seq<Expense>, queryFails: bool)
    : (r: HookState)
    ensures session.None? ==> r == HookError("Not authenticated")
    ensures session.Some? && Truthy(groupId) ==> r == GroupRows(groupId.value)
    ensures session.Some? && !Truthy(groupId) && !queryFails ==>
              r == OverallRows(HookBalances(Contributions(expenses), session.value))
    ensures session.Some? && !Truthy(groupId) && queryFails ==> r.HookError?
  {
    if session.None? then HookError("Not authenticated")
    else if Truthy(groupId) then GroupRows(groupId.value)
    else if queryFails then HookError("query failed")
    else OverallRows(HookBalances(Contributions(expenses), session.value))
  }

  // ---------------------------------------------------------------------
  // Direction by sign

  /** The viewer's counterpart on a route entry labelled with the viewer. */
  function Counterparty(e: RouteEntry, viewer: UserId): UserId
  {
    if e.from == viewer then e.to else e.from
  }

  /** An entry whose direction comes from the sign of its total. */
  datatype SignedBalance = SignedBalance(counterparty: UserId, amount: real, kind: Kind)

  function BySign(e: RouteEntry, viewer: UserId): (b: SignedBalance)
    ensures b.amount == Abs(e.amount)
    ensures b.kind == YouOwe <==> e.amount < 0.0
  {
    SignedBalance(Counterparty(e, viewer), Abs(e.amount), if e.amount < 0.0 then YouOwe else OwesYou)
  }

  function AllBySign(es: seq<RouteEntry>, viewer: UserId): (bs: seq<SignedBalance>)
    ensures |bs| == |es|
    ensures forall i :: 0 <= i < |es| ==> bs[i] == BySign(es[i], viewer)
  {
    seq(|es|, i requires 0 <= i < |es| => BySign(es[i], viewer))
  }

  /** The viewer's balances with the direction taken from the sign: a
      'you-owe' entry exactly when the viewer's net with that counterpart
      is negative, and its amount is the net's absolute value. */
  function ViewerBalances(cs: seq<Contribution>, viewer: UserId): (bs: seq<SignedBalance>)
    ensures |bs| == |RouteBalances(cs, viewer)|
    ensures forall i :: 0 <= i < |bs| ==> bs[i].amount > Epsilon
    ensures forall i :: 0 <= i < |bs| ==>
              && bs[i].amount == Abs(RouteBalances(cs, viewer)[i].amount)
              && (bs[i].kind == YouOwe <==> RouteBalances(cs, viewer)[i].amount < 0.0)
  {
    var es := RouteBalances(cs, viewer);
    assert forall i :: 0 <= i < |es| ==> Abs(es[i].amount) > Epsilon by {
      forall i | 0 <= i < |es| ensures Abs(es[i].amount) > Epsilon {
        assert es[i] in es;
      }
    }
    AllBySign(es, viewer)
  }

  /** When the key tells the ids present apart, the balance with
      counterpart `other` says 'you owe' exactly when the viewer owes
      `other` on net. */
  lemma ViewerBalanceDirection(cs: seq<Contribution>, viewer: UserId, other: UserId)
    requires viewer != other && PairKeysDistinct(SplitIds(cs) + {viewer, other})
    ensures var e := RouteAt(RouteNet(cs, viewer), PairKey(viewer, other));
            (BySign(e, viewer).kind == YouOwe <==> ViewerNet(cs, viewer, other) < 0.0)
            && BySign(e, viewer).amount == Abs(ViewerNet(cs, viewer, other))
  {
    RouteAmountIsViewerNet(cs, viewer, other);
  }

  /** When the key tells the ids present apart, the entry of the pair of
      the viewer and `other` is labelled with exactly those two (or not yet
      labelled), so its counterpart is `other`. */
  lemma {:induction false} PairEntryLabels(cs: seq<Contribution>, viewer: UserId, other: UserId)
    requires viewer != other && PairKeysDistinct(SplitIds(cs) + {viewer, other})
    ensures var e := RouteAt(RouteNet(cs, viewer), PairKey(viewer, other));
            || (e.from == "" && e.to == "")
            || (e.from == viewer && e.to == other)
            || (e.from == other && e.to == viewer)
  {
    if |cs| > 0 {
      var init, c := cs[..|cs| - 1], cs[|cs| - 1];
      var ids := SplitIds(cs) + {viewer, other};
      assert SplitIds(init) + {viewer, other} <= ids;
      PairEntryLabels(init, viewer, other);
      SameKeyIff(ids, c.userId, c.paidById, viewer, other);
    }
  }

  /** The counterpart of a labelled entry of the pair is `other`. */
  lemma CounterpartyIsOther(cs: seq<Contribution>, viewer: UserId, other: UserId)
    requires viewer != other && PairKeysDistinct(SplitIds(cs) + {viewer, other})
    ensures var e := RouteAt(RouteNet(cs, viewer), PairKey(viewer, other));
            e.from != "" ==> BySign(e, viewer).counterparty == other
  {
    PairEntryLabels(cs, viewer, other);
  }

  // ---------------------------------------------------------------------
  // Labels that contradict the total

  lemma HookNetOne(c: Contribution, viewer: UserId)
    ensures HookNet([c], viewer) == HookStep(JsMap.Empty(), viewer, c)
  {
    assert [c][..0] == [];
  }

  lemma RouteNetOne(c: Contribution, viewer: UserId)
    ensures RouteNet([c], viewer) == RouteStep(JsMap.Empty(), viewer, c)
  {
    assert [c][..0] == [];
  }

  /** Viewer "v": "x" pays 30 with v's share 30, then v pays 10 with x's
      share 10. On net v owes x 20. */
  function MixedExample(): seq<Contribution>
  {
    [ Contribution("x", Some(Profile("x", "Xena")), "v", 30.0),
      Contribution("v", Some(Profile("v", "Vee")), "x", 10.0) ]
  }

  lemma MixedExampleNet()
    ensures ViewerNet(MixedExample(), "v", "x") == -20.0
  {
    assert MixedExample()[..1][..0] == [];
  }

  /** Both splits of the example fall under the key "v-x". */
  lemma MixedExampleKey()
    ensures PairKey("v", "x") == "v-x" && PairKey("x", "v") == "v-x"
  {
    assert LexLess("v", "x");
    LexTrichotomy("v", "x");
    assert SortPair("v", "x") == ["v", "x"];
    assert Join(["v", "x"], '-') == "v" + "-" + Join(["x"], '-');
    PairKeySymmetric("x", "v");
  }

  lemma SignificantOne<E(!new)>(k: string, e: E, amount: E -> real)
    requires Abs(amount(e)) > Epsilon
    ensures Significant([k], map[k := e], amount) == [e]
  {
    assert [k][..0] == [];
  }

  lemma MixedExampleHookNet()
    ensures HookNet(MixedExample(), "v")
            == JsMap.OrderedMap(["v-x"], map["v-x" := HookEntry(-20.0, Some(ProfileRef(Some(Profile("v", "Vee")))), Some(UserRef("v")), Some(OwesYou))])
  {
    var cs := MixedExample();
    MixedExampleKey();
    assert cs[..1] == [cs[0]];
    HookNetOne(cs[0], "v");
    var m1 := HookNet(cs[..1], "v");
    assert m1 == JsMap.OrderedMap(["v-x"], map["v-x" := HookEntry(-30.0, Some(UserRef("v")), Some(ProfileRef(Some(Profile("x", "Xena")))), Some(YouOwe))]);
  }

  lemma MixedExampleRouteNet()
    ensures RouteNet(MixedExample(), "v") == JsMap.OrderedMap(["v-x"], map["v-x" := RouteEntry(-20.0, "x", "v")])
  {
    var cs := MixedExample();
    MixedExampleKey();
    assert cs[..1] == [cs[0]];
    RouteNetOne(cs[0], "v");
    var m1 := RouteNet(cs[..1], "v");
    assert m1 == JsMap.OrderedMap(["v-x"], map["v-x" := RouteEntry(-30.0, "v", "x")]);
  }

  /** The hook reports the example as "x owes you 20", its labels both
      naming the viewer: the payer's profile (the viewer's own) as debtor
      and the viewer's id as creditor. */
  lemma HookMislabelsMixedExample()
    ensures HookBalances(MixedExample(), "v")
            == [HookEntry(20.0, Some(ProfileRef(Some(Profile("v", "Vee")))), Some(UserRef("v")), Some(OwesYou))]
  {
    MixedExampleHookNet();
    var e := HookEntry(-20.0, Some(ProfileRef(Some(Profile("v", "Vee")))), Some(UserRef("v")), Some(OwesYou));
    SignificantOne("v-x", e, HookAmount);
  }

  /** By sign, the example is "you owe x 20". */
  lemma BySignLabelsMixedExample()
    ensures ViewerBalances(MixedExample(), "v") == [SignedBalance("x", 20.0, YouOwe)]
  {
    MixedExampleRouteNet();
    SignificantOne("v-x", RouteEntry(-20.0, "x", "v"), RouteAmount);
  }
}
