/** The group balance materialiser of the client library: expenses and their
    per-member splits are folded into a map of directed debts "debtor owes
    creditor", each split first cancelling against the opposite direction;
    the entries above the settlement threshold replace the group's stored
    balance rows. Adding or deleting an expense triggers the recomputation.

    The fold is written once, generic over the function that turns a
    (debtor, creditor) pair into a map key. The application keys the map by
    the string `${debtor}-${creditor}` and later splits that string on '-'
    to recover the two ids (EncodeKey, DecodeKey); this goes wrong for ids
    that contain '-'. The store operations take the keying as a parameter:
    StringKeys is the code as written, PairKeys keys the same fold by the id
    pair itself (PairKey), which needs no decoding. For ids without '-' the
    two write the same rows (KeyingsAgree). */
module GroupLedger {
  import opened JsValues
  import opened Strings
  import JsMap
  import opened Netting

  type UserId = string

  /** A net debt at or below this amount is settled and emits no row. */
  const Epsilon: real := 0.01

  /** A row of `expense_splits`: the member and the share they owe. */
  datatype ExpenseSplit = ExpenseSplit(userId: UserId, shareAmount: real)

  /** A row of `expenses` with its splits joined in. */
  datatype Expense = Expense(
    id: string,
    groupId: string,
    title: string,
    amount: real,
    category: string,
    paidBy: UserId,
    splits: seq<ExpenseSplit>)

  /** A row of `balances`: `fromUserId` owes `toUserId` the amount. The
      creditor is `undefined` when it is read from a string key without '-'. */
  datatype BalanceRow = BalanceRow(groupId: string, fromUserId: UserId, toUserId: Option<UserId>, amount: real)

  /** One split of one expense: `debtor`'s share of what `creditor` paid. */
  datatype Transfer = Transfer(debtor: UserId, creditor: UserId, share: real)

  // ---------------------------------------------------------------------
  // The splits, in the order the nested loops visit them

  function ExpenseTransfers(e: Expense): (ts: seq<Transfer>)
    ensures |ts| == |e.splits|
    ensures forall i :: 0 <= i < |ts| ==>
              ts[i] == Transfer(e.splits[i].userId, e.paidBy, e.splits[i].shareAmount)
  {
    seq(|e.splits|, i requires 0 <= i < |e.splits| =>
      Transfer(e.splits[i].userId, e.paidBy, e.splits[i].shareAmount))
  }

  /** Every split of every expense, expense by expense. */
  function Transfers(es: seq<Expense>): seq<Transfer>
  {
    if |es| == 0 then [] else Transfers(es[..|es| - 1]) + ExpenseTransfers(es[|es| - 1])
  }

  /** Every user id that appears as a debtor or creditor. */
  function Ids(ts: seq<Transfer>): set<UserId>
  {
    if |ts| == 0 then {}
    else Ids(ts[..|ts| - 1]) + {ts[|ts| - 1].debtor, ts[|ts| - 1].creditor}
  }

  /** What `d` owes `c` before netting: the total of `d`'s shares on the
      splits `c` paid for. */
  function Owed(ts: seq<Transfer>, d: UserId, c: UserId): real
  {
    if |ts| == 0 then 0.0
    else
      var t := ts[|ts| - 1];
      Owed(ts[..|ts| - 1], d, c) + (if t.debtor == d && t.creditor == c then t.share else 0.0)
  }

  /** The total of `d`'s shares in a list of splits. */
  function SharesOf(splits: seq<ExpenseSplit>, d: UserId): real
  {
    if |splits| == 0 then 0.0
    else
      var s := splits[|splits| - 1];
      SharesOf(splits[..|splits| - 1], d) + (if s.userId == d then s.shareAmount else 0.0)
  }

  /** The same quantity read off the expenses: the total of `d`'s shares on
      the expenses `c` paid. */
  function OwedOnExpenses(es: seq<Expense>, d: UserId, c: UserId): real
  {
    if |es| == 0 then 0.0
    else
      var e := es[|es| - 1];
      OwedOnExpenses(es[..|es| - 1], d, c) + (if e.paidBy == c then SharesOf(e.splits, d) else 0.0)
  }

  ghost predicate NonNegativeShares(ts: seq<Transfer>)
  {
    forall i :: 0 <= i < |ts| ==> ts[i].share >= 0.0
  }

  // ---------------------------------------------------------------------
  // The fold

  /** One split folded into the map; a split whose member is the payer is
      skipped. */
  function Step<K(==, !new)>(m: JsMap.OrderedMap<K, real>, t: Transfer, enc: (UserId, UserId) -> K)
    : JsMap.OrderedMap<K, real>
  {
    if t.debtor == t.creditor then m
    else ApplySplit(m, enc(t.debtor, t.creditor), enc(t.creditor, t.debtor), t.share)
  }

  /** Any other split nets its share along its own pair of keys and touches
      no other key. */
  lemma StepNets<K(!new)>(m: JsMap.OrderedMap<K, real>, t: Transfer, enc: (UserId, UserId) -> K)
    requires t.debtor != t.creditor
    ensures var key, rev := enc(t.debtor, t.creditor), enc(t.creditor, t.debtor);
            Step(m, t, enc).values == Netted(m.values, key, rev, t.share)
  {
    ApplySplitNets(m, enc(t.debtor, t.creditor), enc(t.creditor, t.debtor), t.share);
  }

  /** The map after every split, in order. */
  function Net<K(==, !new)>(ts: seq<Transfer>, enc: (UserId, UserId) -> K): JsMap.OrderedMap<K, real>
  {
    if |ts| == 0 then JsMap.Empty() else Step(Net(ts[..|ts| - 1], enc), ts[|ts| - 1], enc)
  }

  /** The fold keeps the map well formed: no key twice in the iteration
      order, and the order lists exactly the stored keys. */
  lemma {:induction false} NetValid<K(!new)>(ts: seq<Transfer>, enc: (UserId, UserId) -> K)
    ensures JsMap.Valid(Net(ts, enc))
  {
    if |ts| > 0 {
      var t := ts[|ts| - 1];
      NetValid(ts[..|ts| - 1], enc);
      if t.debtor != t.creditor {
        ApplySplitValid(Net(ts[..|ts| - 1], enc), enc(t.debtor, t.creditor), enc(t.creditor, t.debtor), t.share);
      }
    }
  }

  /** Every key of the map is the key of two different ids that occur in
      the splits. */
  lemma {:induction false} NetKeys<K(!new)>(ts: seq<Transfer>, enc: (UserId, UserId) -> K)
    ensures forall k :: k in Net(ts, enc).values ==>
              exists a, b :: a in Ids(ts) && b in Ids(ts) && a != b && k == enc(a, b)
  {
    if |ts| > 0 {
      var init, t := ts[..|ts| - 1], ts[|ts| - 1];
      NetKeys(init, enc);
      assert Ids(ts) == Ids(init) + {t.debtor, t.creditor};
      if t.debtor != t.creditor {
        var m := Net(init, enc);
        var key, rev := enc(t.debtor, t.creditor), enc(t.creditor, t.debtor);
        StepNets(m, t, enc);
        NettedFrame(m.values, key, rev, t.share);
        forall k | k in Net(ts, enc).values
          ensures exists a, b :: a in Ids(ts) && b in Ids(ts) && a != b && k == enc(a, b)
        {
          if k == key {
            assert t.debtor in Ids(ts) && t.creditor in Ids(ts);
          } else if k == rev {
            assert t.creditor in Ids(ts) && t.debtor in Ids(ts);
          } else {
            assert k in m.values;
            var a, b :| a in Ids(init) && b in Ids(init) && a != b && k == enc(a, b);
            assert a in Ids(ts) && b in Ids(ts);
          }
        }
      }
    }
  }

  /** `enc` tells distinct pairs of the given ids apart. */
  ghost predicate KeyInjective<K(!new)>(enc: (UserId, UserId) -> K, ids: set<UserId>)
  {
    forall a, b, x, y :: a in ids && b in ids && x in ids && y in ids && enc(a, b) == enc(x, y) ==>
      a == x && b == y
  }

  /** Conservation: once every split is folded in, the debt recorded from
      `d` to `c` minus the debt recorded from `c` to `d` is exactly what `d`
      owes `c` minus what `c` owes `d`, whatever the signs of the shares. */
  lemma {:induction false} Conservation<K(!new)>(ts: seq<Transfer>, enc: (UserId, UserId) -> K, d: UserId, c: UserId)
    requires d != c
    requires KeyInjective(enc, Ids(ts) + {d, c})
    ensures Get(Net(ts, enc).values, enc(d, c)) - Get(Net(ts, enc).values, enc(c, d))
            == Owed(ts, d, c) - Owed(ts, c, d)
  {
    if |ts| > 0 {
      var init, t := ts[..|ts| - 1], ts[|ts| - 1];
      assert Ids(ts) == Ids(init) + {t.debtor, t.creditor};
      Conservation(init, enc, d, c);
      var m := Net(init, enc);
      if t.debtor != t.creditor {
        var key, rev := enc(t.debtor, t.creditor), enc(t.creditor, t.debtor);
        assert key != rev;
        StepNets(m, t, enc);
        NettedDifference(m.values, key, rev, t.share);
        if t.debtor == d && t.creditor == c {
        } else if t.debtor == c && t.creditor == d {
        } else {
          NettedFrame(m.values, key, rev, t.share);
          assert enc(d, c) != key && enc(d, c) != rev;
          assert enc(c, d) != key && enc(c, d) != rev;
        }
      }
    }
  }

  /** With non-negative shares every stored amount is non-negative. */
  lemma {:induction false} NetNonNegative<K(!new)>(ts: seq<Transfer>, enc: (UserId, UserId) -> K)
    requires NonNegativeShares(ts)
    ensures NonNegativeValues(Net(ts, enc).values)
  {
    if |ts| > 0 {
      var init, t := ts[..|ts| - 1], ts[|ts| - 1];
      NetNonNegative(init, enc);
      if t.debtor != t.creditor {
        StepNets(Net(init, enc), t, enc);
        NettedNonNegative(Net(init, enc).values, enc(t.debtor, t.creditor), enc(t.creditor, t.debtor), t.share);
      }
    }
  }

  /** For each pair of distinct users, at most one direction is stored. */
  ghost predicate OneDirection<K>(m: map<K, real>, enc: (UserId, UserId) -> K, ids: set<UserId>)
  {
    forall a, b :: a in ids && b in ids && a != b ==> !(enc(a, b) in m && enc(b, a) in m)
  }

  /** With non-negative shares, after every split at most one of the two
      directed keys of a pair is present. */
  lemma {:induction false} NetOneDirection<K(!new)>(ts: seq<Transfer>, enc: (UserId, UserId) -> K, ids: set<UserId>)
    requires NonNegativeShares(ts)
    requires Ids(ts) <= ids
    requires KeyInjective(enc, ids)
    ensures OneDirection(Net(ts, enc).values, enc, ids)
  {
    if |ts| > 0 {
      var init, t := ts[..|ts| - 1], ts[|ts| - 1];
      assert Ids(ts) == Ids(init) + {t.debtor, t.creditor};
      NetOneDirection(init, enc, ids);
      var m := Net(init, enc);
      var r := Net(ts, enc);
      if t.debtor != t.creditor {
        var key, rev := enc(t.debtor, t.creditor), enc(t.creditor, t.debtor);
        StepNets(m, t, enc);
        NettedOneDirection(m.values, key, rev, t.share);
        NettedFrame(m.values, key, rev, t.share);
        forall a, b | a in ids && b in ids && a != b
          ensures !(enc(a, b) in r.values && enc(b, a) in r.values)
        {
          if (a == t.debtor && b == t.creditor) || (a == t.creditor && b == t.debtor) {
          } else {
            assert enc(a, b) != key && enc(a, b) != rev;
            assert enc(b, a) != key && enc(b, a) != rev;
          }
        }
      }
    }
  }

  function Max(x: real, y: real): real
  {
    if x >= y then x else y
  }

  /** The net debt: with non-negative shares the amount stored from `d` to
      `c` is what `d` owes `c` net of what `c` owes `d`, or nothing when that
      is not positive. */
  lemma NetOwed<K(!new)>(ts: seq<Transfer>, enc: (UserId, UserId) -> K, d: UserId, c: UserId)
    requires d != c
    requires NonNegativeShares(ts)
    requires KeyInjective(enc, Ids(ts) + {d, c})
    ensures var m := Net(ts, enc).values; Get(m, enc(d, c)) == Max(0.0, Owed(ts, d, c) - Owed(ts, c, d))
  {
    var m := Net(ts, enc).values;
    assert Get(m, enc(d, c)) - Get(m, enc(c, d)) == Owed(ts, d, c) - Owed(ts, c, d) by {
      Conservation(ts, enc, d, c);
    }
    assert NonNegativeValues(m) by {
      NetNonNegative(ts, enc);
    }
    assert !(enc(d, c) in m && enc(c, d) in m) by {
      NetOneDirection(ts, enc, Ids(ts) + {d, c});
      assert d in Ids(ts) + {d, c} && c in Ids(ts) + {d, c};
    }
    NetOfPair(m, enc(d, c), enc(c, d), ts, d, c);
  }

  /** Two non-negative amounts, at most one present, whose difference is
      what `d` owes `c` net: the first is the positive part of that. */
  lemma NetOfPair<K>(m: map<K, real>, key: K, rev: K, ts: seq<Transfer>, d: UserId, c: UserId)
    requires NonNegativeValues(m)
    requires !(key in m && rev in m)
    requires Get(m, key) - Get(m, rev) == Owed(ts, d, c) - Owed(ts, c, d)
    ensures Get(m, key) == Max(0.0, Owed(ts, d, c) - Owed(ts, c, d))
  {
    if key in m { assert m[key] >= 0.0; }
    if rev in m { assert m[rev] >= 0.0; }
  }

  lemma {:induction false} OwedAppend(ts: seq<Transfer>, us: seq<Transfer>, d: UserId, c: UserId)
    ensures Owed(ts + us, d, c) == Owed(ts, d, c) + Owed(us, d, c)
    decreases |us|
  {
    if |us| == 0 {
      assert ts + us == ts;
    } else {
      OwedAppend(ts, us[..|us| - 1], d, c);
      assert (ts + us)[..|ts + us| - 1] == ts + us[..|us| - 1];
    }
  }

  lemma {:induction false} OwedOneExpense(e: Expense, d: UserId, c: UserId)
    ensures Owed(ExpenseTransfers(e), d, c) == if e.paidBy == c then SharesOf(e.splits, d) else 0.0
    decreases |e.splits|
  {
    if |e.splits| > 0 {
      var e' := e.(splits := e.splits[..|e.splits| - 1]);
      OwedOneExpense(e', d, c);
      assert ExpenseTransfers(e)[..|e.splits| - 1] == ExpenseTransfers(e');
    }
  }

  /** The splits the fold visits carry the expenses' meaning: what `d` owes
      `c` over the splits is the total of `d`'s shares on expenses `c` paid. */
  lemma {:induction false} OwedMatchesExpenses(es: seq<Expense>, d: UserId, c: UserId)
    ensures Owed(Transfers(es), d, c) == OwedOnExpenses(es, d, c)
  {
    if |es| > 0 {
      OwedMatchesExpenses(es[..|es| - 1], d, c);
      OwedAppend(Transfers(es[..|es| - 1]), ExpenseTransfers(es[|es| - 1]), d, c);
      OwedOneExpense(es[|es| - 1], d, c);
    }
  }

  // ---------------------------------------------------------------------
  // Keys

  /** The key the application uses: `${debtor}-${creditor}`. */
  function EncodeKey(debtor: UserId, creditor: UserId): string
  {
    debtor + "-" + creditor
  }

  /** `const [from_user_id, to_user_id] = key.split('-')`. */
  function DecodeKey(key: string): (UserId, Option<UserId>)
  {
    var fields := Split(key, '-');
    (fields[0], if |fields| > 1 then Some(fields[1]) else None)
  }

  /** The key used by the corrected fold: the pair itself. */
  function PairKey(debtor: UserId, creditor: UserId): (UserId, UserId)
  {
    (debtor, creditor)
  }

  predicate HyphenFree(id: UserId)
  {
    '-' !in id
  }

  /** Splitting the joined key recovers both ids exactly when neither
      contains '-'. */
  lemma DecodeEncodeIff(a: UserId, b: UserId)
    ensures DecodeKey(EncodeKey(a, b)) == (a, Some(b)) <==> HyphenFree(a) && HyphenFree(b)
  {
    var fields := Split(EncodeKey(a, b), '-');
    if HyphenFree(a) {
      SplitAfterFirst(a, '-', b);
      assert fields == [a] + Split(b, '-');
    }
  }

  /** The joined key tells pairs of hyphen-free ids apart. */
  lemma EncodeKeyInjective(ids: set<UserId>)
    requires forall id :: id in ids ==> HyphenFree(id)
    ensures KeyInjective(EncodeKey, ids)
  {
    forall a, b, x, y | a in ids && b in ids && x in ids && y in ids && EncodeKey(a, b) == EncodeKey(x, y)
      ensures a == x && b == y
    {
      DecodeEncodeIff(a, b);
      DecodeEncodeIff(x, y);
    }
  }

  /** The joined key also tells apart the pairs of ids of one common
      length, such as UUIDs, whatever they contain: the first id is the
      key's first `n` characters and the second what follows the
      separator after them. */
  lemma SameLengthEncodeKeyInjective(ids: set<UserId>, n: nat)
    requires forall id :: id in ids ==> |id| == n
    ensures KeyInjective(EncodeKey, ids)
  {
    forall a, b, x, y | a in ids && b in ids && x in ids && y in ids && EncodeKey(a, b) == EncodeKey(x, y)
      ensures a == x && b == y
    {
      var k := EncodeKey(a, b);
      assert a == k[..n] == x;
      assert b == k[n + 1..] == y;
    }
  }

  /** With ids of one common length the string-keyed map stores the net
      debt: only the `split('-')` when the rows are written goes wrong. */
  lemma SameLengthNetOwed(ts: seq<Transfer>, d: UserId, c: UserId, n: nat)
    requires d != c
    requires NonNegativeShares(ts)
    requires forall id :: id in Ids(ts) + {d, c} ==> |id| == n
    ensures var m := Net(ts, EncodeKey).values;
            Get(m, EncodeKey(d, c)) == Max(0.0, Owed(ts, d, c) - Owed(ts, c, d))
  {
    SameLengthEncodeKeyInjective(Ids(ts) + {d, c}, n);
    NetOwed(ts, EncodeKey, d, c);
  }

  /** The pair key tells all pairs apart. */
  lemma PairKeyInjective(ids: set<UserId>)
    ensures KeyInjective(PairKey, ids)
  {
  }

  // ---------------------------------------------------------------------
  // Rows

  /** The entries above the threshold, in key order
      (`Array.from(map.entries()).filter(([_, amount]) => amount > 0.01)`). */
  function Outstanding<K(!new)>(keys: seq<K>, values: map<K, real>): (es: seq<(K, real)>)
    requires forall k :: k in keys ==> k in values
    ensures forall p :: p in es <==> p.0 in keys && p.1 == values[p.0] && p.1 > Epsilon
  {
    if |keys| == 0 then []
    else
      var k := keys[|keys| - 1];
      var rest := Outstanding(keys[..|keys| - 1], values);
      assert forall x :: x in keys <==> x in keys[..|keys| - 1] || x == k;
      if values[k] > Epsilon then rest + [(k, values[k])] else rest
  }

  function PairRows(groupId: string, es: seq<((UserId, UserId), real)>): (rows: seq<BalanceRow>)
    ensures forall r :: r in rows <==> exists p :: p in es && r == BalanceRow(groupId, p.0.0, Some(p.0.1), p.1)
  {
    if |es| == 0 then []
    else
      var p := es[|es| - 1];
      assert forall x :: x in es <==> x in es[..|es| - 1] || x == p;
      PairRows(groupId, es[..|es| - 1]) + [BalanceRow(groupId, p.0.0, Some(p.0.1), p.1)]
  }

  function DecodedRows(groupId: string, es: seq<(string, real)>): (rows: seq<BalanceRow>)
    ensures forall r :: r in rows <==>
              exists p :: p in es && r == BalanceRow(groupId, DecodeKey(p.0).0, DecodeKey(p.0).1, p.1)
  {
    if |es| == 0 then []
    else
      var p := es[|es| - 1];
      assert forall x :: x in es <==> x in es[..|es| - 1] || x == p;
      DecodedRows(groupId, es[..|es| - 1]) + [BalanceRow(groupId, DecodeKey(p.0).0, DecodeKey(p.0).1, p.1)]
  }

  /** The rows of the pair-keyed map: exactly its entries above the
      threshold, each tagged with the group. */
  function EmitRows(groupId: string, m: JsMap.OrderedMap<(UserId, UserId), real>): (rows: seq<BalanceRow>)
    requires JsMap.Valid(m)
    ensures forall r :: r in rows ==>
              && r.groupId == groupId
              && r.toUserId.Some?
              && (r.fromUserId, r.toUserId.value) in m.values
              && r.amount == m.values[(r.fromUserId, r.toUserId.value)]
              && r.amount > Epsilon
    ensures forall k :: k in m.values && m.values[k] > Epsilon ==>
              BalanceRow(groupId, k.0, Some(k.1), m.values[k]) in rows
  {
    var es := Outstanding(m.keys, m.values);
    var rows := PairRows(groupId, es);
    assert forall k :: k in m.values && m.values[k] > Epsilon ==> (k, m.values[k]) in es;
    rows
  }

  /** The rows as the application builds them: each string key of an entry
      above the threshold is split on '-' to recover the two ids. */
  function EmitRowsAsWritten(groupId: string, m: JsMap.OrderedMap<string, real>): (rows: seq<BalanceRow>)
    requires JsMap.Valid(m)
    ensures forall r :: r in rows ==>
              exists k :: k in m.values && m.values[k] > Epsilon &&
                r == BalanceRow(groupId, DecodeKey(k).0, DecodeKey(k).1, m.values[k])
    ensures forall k :: k in m.values && m.values[k] > Epsilon ==>
              BalanceRow(groupId, DecodeKey(k).0, DecodeKey(k).1, m.values[k]) in rows
  {
    var es := Outstanding(m.keys, m.values);
    assert forall k :: k in m.values && m.values[k] > Epsilon ==> (k, m.values[k]) in es;
    DecodedRows(groupId, es)
  }

  /** The expenses of one group (the query filtered on `group_id`). */
  function GroupExpenses(table: seq<Expense>, groupId: string): (es: seq<Expense>)
    ensures forall e :: e in es <==> e in table && e.groupId == groupId
  {
    if |table| == 0 then []
    else
      var rest := GroupExpenses(table[..|table| - 1], groupId);
      var e := table[|table| - 1];
      assert forall x :: x in table <==> x in table[..|table| - 1] || x == e;
      if e.groupId == groupId then rest + [e] else rest
  }

  /** How the fold keys its map: by the joined string, split on '-' when
      the rows are written (the application as written), or by the id pair
      itself. */
  datatype Keying = StringKeys | PairKeys

  /** The rows the fold over `ts` yields under the given keying. */
  function KeyedRows(keying: Keying, groupId: string, ts: seq<Transfer>): seq<BalanceRow>
  {
    match keying
    case StringKeys =>
      NetValid(ts, EncodeKey);
      EmitRowsAsWritten(groupId, Net(ts, EncodeKey))
    case PairKeys =>
      NetValid(ts, PairKey);
      EmitRows(groupId, Net(ts, PairKey))
  }

  /** The group's balance rows recomputed from its expenses. */
  function Recompute(keying: Keying, table: seq<Expense>, groupId: string): seq<BalanceRow>
  {
    KeyedRows(keying, groupId, Transfers(GroupExpenses(table, groupId)))
  }

  /** Every recomputed row is tagged with the group and carries an amount
      above the threshold. */
  lemma RecomputedRowsShape(keying: Keying, table: seq<Expense>, groupId: string)
    ensures forall r :: r in Recompute(keying, table, groupId) ==> r.groupId == groupId && r.amount > Epsilon
  {
  }

  /** The group's stored debt from `d` to `c`: there is a row for the pair
      exactly when `d`'s shares on expenses `c` paid exceed `c`'s shares on
      expenses `d` paid by more than the threshold, and its amount is that
      difference. */
  lemma RecomputedRowIff(table: seq<Expense>, groupId: string, d: UserId, c: UserId)
    requires d != c
    requires forall e :: e in table ==> forall i :: 0 <= i < |e.splits| ==> e.splits[i].shareAmount >= 0.0
    ensures var es := GroupExpenses(table, groupId);
            var net := OwedOnExpenses(es, d, c) - OwedOnExpenses(es, c, d);
            net > Epsilon <==> BalanceRow(groupId, d, Some(c), net) in Recompute(PairKeys, table, groupId)
  {
    var es := GroupExpenses(table, groupId);
    forall e | e in es
      ensures forall i :: 0 <= i < |e.splits| ==> e.splits[i].shareAmount >= 0.0
    {
      assert e in table;
    }
    var net := OwedOnExpenses(es, d, c) - OwedOnExpenses(es, c, d);
    var m := Net(Transfers(es), PairKey);
    TransfersNonNegative(es);
    NetOwedOnExpenses(es, d, c);
    NetValid(Transfers(es), PairKey);
    RowOfPair(groupId, m, d, c, net);
    assert Recompute(PairKeys, table, groupId) == EmitRows(groupId, m);
  }

  /** NetOwed read off the expenses, for the pair-keyed fold. */
  lemma NetOwedOnExpenses(es: seq<Expense>, d: UserId, c: UserId)
    requires d != c
    requires NonNegativeShares(Transfers(es))
    ensures Get(Net(Transfers(es), PairKey).values, (d, c))
            == Max(0.0, OwedOnExpenses(es, d, c) - OwedOnExpenses(es, c, d))
  {
    var ts := Transfers(es);
    assert Get(Net(ts, PairKey).values, (d, c)) == Max(0.0, Owed(ts, d, c) - Owed(ts, c, d)) by {
      NetOwedPairs(ts, d, c);
    }
    assert Owed(ts, d, c) == OwedOnExpenses(es, d, c) by {
      OwedMatchesExpenses(es, d, c);
    }
    assert Owed(ts, c, d) == OwedOnExpenses(es, c, d) by {
      OwedMatchesExpenses(es, c, d);
    }
  }

  /** NetOwed for the pair-keyed fold. */
  lemma NetOwedPairs(ts: seq<Transfer>, d: UserId, c: UserId)
    requires d != c
    requires NonNegativeShares(ts)
    ensures Get(Net(ts, PairKey).values, (d, c)) == Max(0.0, Owed(ts, d, c) - Owed(ts, c, d))
  {
    PairKeyInjective(Ids(ts) + {d, c});
    NetOwed(ts, PairKey, d, c);
  }

  lemma RowOfPair(groupId: string, m: JsMap.OrderedMap<(UserId, UserId), real>, d: UserId, c: UserId, net: real)
    requires JsMap.Valid(m)
    requires Get(m.values, (d, c)) == Max(0.0, net)
    ensures net > Epsilon <==> BalanceRow(groupId, d, Some(c), net) in EmitRows(groupId, m)
  {
    if BalanceRow(groupId, d, Some(c), net) in EmitRows(groupId, m) {
      assert (d, c) in m.values && m.values[(d, c)] == net;
    }
  }

  lemma {:induction false} TransfersNonNegative(es: seq<Expense>)
    requires forall e :: e in es ==> forall i :: 0 <= i < |e.splits| ==> e.splits[i].shareAmount >= 0.0
    ensures NonNegativeShares(Transfers(es))
  {
    if |es| > 0 {
      TransfersNonNegative(es[..|es| - 1]);
      assert es[|es| - 1] in es;
    }
  }

  // ---------------------------------------------------------------------
  // The two keyings agree on ids without '-'

  /** Every id of the table's splits and payers is free of '-'. */
  ghost predicate TableHyphenFree(table: seq<Expense>)
  {
    forall e :: e in table ==>
      HyphenFree(e.paidBy) && forall i :: 0 <= i < |e.splits| ==> HyphenFree(e.splits[i].userId)
  }

  lemma {:induction false} TransfersHyphenFree(es: seq<Expense>)
    requires TableHyphenFree(es)
    ensures forall i :: 0 <= i < |Transfers(es)| ==>
              HyphenFree(Transfers(es)[i].debtor) && HyphenFree(Transfers(es)[i].creditor)
  {
    if |es| > 0 {
      TransfersHyphenFree(es[..|es| - 1]);
      assert es[|es| - 1] in es;
    }
  }

  lemma {:induction false} IdsHyphenFree(ts: seq<Transfer>)
    requires forall i :: 0 <= i < |ts| ==> HyphenFree(ts[i].debtor) && HyphenFree(ts[i].creditor)
    ensures forall id :: id in Ids(ts) ==> HyphenFree(id)
  {
    if |ts| > 0 {
      IdsHyphenFree(ts[..|ts| - 1]);
    }
  }

  /** A key of the string-keyed map splits back into the two different ids
      it was built from, when no id of the splits contains '-'. */
  lemma DecodeNetKey(ts: seq<Transfer>, k: string)
    requires forall id :: id in Ids(ts) ==> HyphenFree(id)
    requires k in Net(ts, EncodeKey).values
    ensures DecodeKey(k).1.Some?
    ensures var a, b := DecodeKey(k).0, DecodeKey(k).1.value;
            a in Ids(ts) && b in Ids(ts) && a != b && k == EncodeKey(a, b)
  {
    NetKeys(ts, EncodeKey);
    var a, b :| a in Ids(ts) && b in Ids(ts) && a != b && k == EncodeKey(a, b);
    DecodeEncodeIff(a, b);
  }

  /** Both keyings store the same net amount for a pair of different ids
      of the splits. */
  lemma SameAmount(ts: seq<Transfer>, a: UserId, b: UserId)
    requires NonNegativeShares(ts)
    requires forall id :: id in Ids(ts) ==> HyphenFree(id)
    requires a in Ids(ts) && b in Ids(ts) && a != b
    ensures Get(Net(ts, EncodeKey).values, EncodeKey(a, b)) == Get(Net(ts, PairKey).values, (a, b))
  {
    assert Ids(ts) + {a, b} == Ids(ts);
    EncodeKeyInjective(Ids(ts));
    NetOwed(ts, EncodeKey, a, b);
    NetOwedPairs(ts, a, b);
  }

  /** A row written from the string-keyed map is a row of the pair-keyed
      map, when no id of the splits contains '-'. */
  lemma StringRowIsPairRow(ts: seq<Transfer>, groupId: string, r: BalanceRow)
    requires NonNegativeShares(ts)
    requires forall id :: id in Ids(ts) ==> HyphenFree(id)
    requires r in KeyedRows(StringKeys, groupId, ts)
    ensures r in KeyedRows(PairKeys, groupId, ts)
  {
    var mE, mP := Net(ts, EncodeKey), Net(ts, PairKey);
    NetValid(ts, EncodeKey);
    NetValid(ts, PairKey);
    var k :| k in mE.values && mE.values[k] > Epsilon &&
             r == BalanceRow(groupId, DecodeKey(k).0, DecodeKey(k).1, mE.values[k]);
    DecodeNetKey(ts, k);
    var a, b := DecodeKey(k).0, DecodeKey(k).1.value;
    SameAmount(ts, a, b);
    assert (a, b) in mP.values;
  }

  /** A row of the pair-keyed map is written from the string-keyed map too,
      when no id of the splits contains '-'. */
  lemma PairRowIsStringRow(ts: seq<Transfer>, groupId: string, r: BalanceRow)
    requires NonNegativeShares(ts)
    requires forall id :: id in Ids(ts) ==> HyphenFree(id)
    requires r in KeyedRows(PairKeys, groupId, ts)
    ensures r in KeyedRows(StringKeys, groupId, ts)
  {
    var mE, mP := Net(ts, EncodeKey), Net(ts, PairKey);
    NetValid(ts, EncodeKey);
    NetValid(ts, PairKey);
    var a, b := r.fromUserId, r.toUserId.value;
    NetKeys(ts, PairKey);
    assert a in Ids(ts) && b in Ids(ts) && a != b;
    SameAmount(ts, a, b);
    assert EncodeKey(a, b) in mE.values;
    DecodeEncodeIff(a, b);
  }

  /** When no id of the splits contains '-', the rows written from the
      string-keyed map are exactly the rows of the pair-keyed map. */
  lemma KeyedRowsAgree(ts: seq<Transfer>, groupId: string)
    requires NonNegativeShares(ts)
    requires forall id :: id in Ids(ts) ==> HyphenFree(id)
    ensures forall r :: r in KeyedRows(StringKeys, groupId, ts) <==> r in KeyedRows(PairKeys, groupId, ts)
  {
    forall r | r in KeyedRows(StringKeys, groupId, ts)
      ensures r in KeyedRows(PairKeys, groupId, ts)
    {
      StringRowIsPairRow(ts, groupId, r);
    }
    forall r | r in KeyedRows(PairKeys, groupId, ts)
      ensures r in KeyedRows(StringKeys, groupId, ts)
    {
      PairRowIsStringRow(ts, groupId, r);
    }
  }

  /** For a table whose ids contain no '-', and whose shares are not
      negative, the application's rows are the pair-keyed rows. */
  lemma KeyingsAgree(table: seq<Expense>, groupId: string)
    requires forall e :: e in table ==> forall i :: 0 <= i < |e.splits| ==> e.splits[i].shareAmount >= 0.0
    requires TableHyphenFree(table)
    ensures forall r :: r in Recompute(StringKeys, table, groupId) <==> r in Recompute(PairKeys, table, groupId)
  {
    var es := GroupExpenses(table, groupId);
    assert forall e :: e in es ==> e in table;
    TransfersNonNegative(es);
    TransfersHyphenFree(es);
    IdsHyphenFree(Transfers(es));
    KeyedRowsAgree(Transfers(es), groupId);
  }

  // ---------------------------------------------------------------------
  // The store

  /** The two tables the operations touch. */
  datatype Db = Db(expenses: seq<Expense>, balances: seq<BalanceRow>)

  /** Which request of the recomputation fails, if any. A failed read throws
      before anything is written; a failed delete of the old rows is not
      checked; a failed insert of the new rows throws after the delete. */
  datatype BalanceFault = NoBalanceFault | FetchFails | ClearFails | InsertFails

  /** `supabase.from('balances').delete().eq('group_id', groupId)`. */
  function RowsOutside(rows: seq<BalanceRow>, groupId: string): (r: seq<BalanceRow>)
    ensures forall row :: row in r <==> row in rows && row.groupId != groupId
  {
    if |rows| == 0 then []
    else
      var rest := RowsOutside(rows[..|rows| - 1], groupId);
      var row := rows[|rows| - 1];
      assert forall x :: x in rows <==> x in rows[..|rows| - 1] || x == row;
      if row.groupId != groupId then rest + [row] else rest
  }

  /** The stored rows of group `groupId` are exactly `rows`. */
  ghost predicate GroupRowsAre(balances: seq<BalanceRow>, groupId: string, rows: seq<BalanceRow>)
  {
    forall row: BalanceRow :: row.groupId == groupId ==> (row in balances <==> row in rows)
  }

  /** The rows of every group other than `groupId` are as before. */
  ghost predicate OtherGroupsKept(after: seq<BalanceRow>, before: seq<BalanceRow>, groupId: string)
  {
    forall row: BalanceRow :: row.groupId != groupId ==> (row in after <==> row in before)
  }

  /** `updateBalances(groupId)`: the group's stored rows are replaced by the
      rows recomputed from its expenses; the rows of other groups are left
      alone. Returns the new balance table and whether it threw. */
  function UpdateBalances(keying: Keying, balances: seq<BalanceRow>, table: seq<Expense>, groupId: string, fault: BalanceFault)
    : (r: (seq<BalanceRow>, bool))
    ensures OtherGroupsKept(r.0, balances, groupId)
    ensures r.1 <==> fault == FetchFails || (fault == InsertFails && |Recompute(keying, table, groupId)| > 0)
    ensures fault == FetchFails ==> r.0 == balances
    ensures fault == NoBalanceFault ==> GroupRowsAre(r.0, groupId, Recompute(keying, table, groupId))
    ensures fault == InsertFails ==> forall row :: row in r.0 ==> row.groupId != groupId
    ensures fault == ClearFails ==>
              forall row: BalanceRow :: row.groupId == groupId ==>
                (row in r.0 <==> row in balances || row in Recompute(keying, table, groupId))
  {
    if fault == FetchFails then (balances, true)
    else
      var recomputed := Recompute(keying, table, groupId);
      RecomputedRowsShape(keying, table, groupId);
      var kept := if fault == ClearFails then balances else RowsOutside(balances, groupId);
      if |recomputed| == 0 then (kept, false)
      else if fault == InsertFails then (kept, true)
      else (kept + recomputed, false)
  }

  /** Recomputing twice from the same expenses leaves the same rows as
      recomputing once: the second run replaces the first run's rows. */
  lemma UpdateBalancesIdempotent(keying: Keying, balances: seq<BalanceRow>, table: seq<Expense>, groupId: string)
    ensures var once := UpdateBalances(keying, balances, table, groupId, NoBalanceFault).0;
            var twice := UpdateBalances(keying, once, table, groupId, NoBalanceFault).0;
            forall row :: row in twice <==> row in once
  {
  }

  /** For a table whose ids contain no '-', and whose shares are not
      negative, the store the application leaves behind holds the same rows,
      and throws in the same cases, as the pair-keyed store. */
  lemma UpdateBalancesKeyingsAgree(balances: seq<BalanceRow>, table: seq<Expense>, groupId: string, fault: BalanceFault)
    requires forall e :: e in table ==> forall i :: 0 <= i < |e.splits| ==> e.splits[i].shareAmount >= 0.0
    requires TableHyphenFree(table)
    ensures var s := UpdateBalances(StringKeys, balances, table, groupId, fault);
            var p := UpdateBalances(PairKeys, balances, table, groupId, fault);
            s.1 == p.1 && forall row :: row in s.0 <==> row in p.0
  {
    KeyingsAgree(table, groupId);
    var s, p := Recompute(StringKeys, table, groupId), Recompute(PairKeys, table, groupId);
    assert |s| == 0 <==> |p| == 0 by {
      if |s| > 0 { assert s[0] in p; }
      if |p| > 0 { assert p[0] in s; }
    }
    if fault != FetchFails {
      var kept := if fault == ClearFails then balances else RowsOutside(balances, groupId);
      if |s| == 0 || fault == InsertFails {
        assert UpdateBalances(StringKeys, balances, table, groupId, fault).0 == kept;
        assert UpdateBalances(PairKeys, balances, table, groupId, fault).0 == kept;
      } else {
        assert UpdateBalances(StringKeys, balances, table, groupId, fault).0 == kept + s;
        assert UpdateBalances(PairKeys, balances, table, groupId, fault).0 == kept + p;
        assert forall row :: row in kept + s <==> row in kept + p;
      }
    }
  }

  /** Equal shares: `amount / splitBetween.length` for each member. */
  function EqualSplits(members: seq<UserId>, amount: real): (splits: seq<ExpenseSplit>)
    ensures |splits| == |members|
    ensures forall i :: 0 <= i < |splits| ==>
              splits[i].userId == members[i] && splits[i].shareAmount * (|members| as real) == amount
  {
    if |members| == 0 then []
    else seq(|members|, i requires 0 <= i < |members| => ExpenseSplit(members[i], amount / (|members| as real)))
  }

  function TotalShares(splits: seq<ExpenseSplit>): real
  {
    if |splits| == 0 then 0.0 else TotalShares(splits[..|splits| - 1]) + splits[|splits| - 1].shareAmount
  }

  lemma {:induction false} TotalOfEqualShares(splits: seq<ExpenseSplit>, share: real)
    requires forall i :: 0 <= i < |splits| ==> splits[i].shareAmount == share
    ensures TotalShares(splits) == (|splits| as real) * share
  {
    if |splits| > 0 {
      TotalOfEqualShares(splits[..|splits| - 1], share);
    }
  }

  /** The equal shares add up to the amount. */
  lemma EqualSplitsTotal(members: seq<UserId>, amount: real)
    requires |members| > 0
    ensures TotalShares(EqualSplits(members, amount)) == amount
  {
    var splits := EqualSplits(members, amount);
    TotalOfEqualShares(splits, amount / (|members| as real));
  }

  /** Which request of `addExpense` fails, if any. */
  datatype AddFault = AddsCleanly | ExpenseInsertFails | SplitsInsertFails | RecomputeFails(fault: BalanceFault)

  /** `addExpense`: without a signed-in user nothing is written; otherwise the
      expense is inserted with the user as payer, then one equal share per
      listed member, then the group's balances are recomputed. The expense
      is returned when nothing threw. `newId` is the id the database gives
      the new row. */
  function AddExpense(
    keying: Keying, db: Db, user: Option<UserId>, newId: string,
    groupId: string, title: string, amount: real, category: string, splitBetween: seq<UserId>,
    fault: AddFault): (r: (Db, Option<Expense>))
    ensures user.None? || fault == ExpenseInsertFails ==> r == (db, None)
    ensures r.1.Some? ==>
              && user.Some?
              && r.1.value == Expense(newId, groupId, title, amount, category, user.value,
                                      EqualSplits(splitBetween, amount))
              && r.0.expenses == db.expenses + [r.1.value]
    ensures fault == AddsCleanly && user.Some? ==>
              r.1.Some? && GroupRowsAre(r.0.balances, groupId, Recompute(keying, r.0.expenses, groupId))
    ensures fault == SplitsInsertFails && user.Some? ==>
              r == (db.(expenses := db.expenses + [Expense(newId, groupId, title, amount, category, user.value, [])]), None)
    ensures fault.RecomputeFails? && user.Some? ==>
              var e := Expense(newId, groupId, title, amount, category, user.value, EqualSplits(splitBetween, amount));
              var u := UpdateBalances(keying, db.balances, db.expenses + [e], groupId, fault.fault);
              && r.0 == Db(db.expenses + [e], u.0)
              && (r.1.None? <==> u.1)
    ensures OtherGroupsKept(r.0.balances, db.balances, groupId)
  {
    if user.None? || fault == ExpenseInsertFails then (db, None)
    else
      var bare := Expense(newId, groupId, title, amount, category, user.value, []);
      if fault == SplitsInsertFails then (db.(expenses := db.expenses + [bare]), None)
      else
        var e := bare.(splits := EqualSplits(splitBetween, amount));
        var table := db.expenses + [e];
        var balanceFault := if fault.RecomputeFails? then fault.fault else NoBalanceFault;
        var u := UpdateBalances(keying, db.balances, table, groupId, balanceFault);
        (Db(table, u.0), if u.1 then None else Some(e))
  }

  /** The first expense with the given id (the `.single()` lookup). */
  function FindExpense(table: seq<Expense>, id: string): (r: Option<Expense>)
    ensures r.Some? ==> r.value in table && r.value.id == id
    ensures r.None? ==> forall e :: e in table ==> e.id != id
  {
    if |table| == 0 then None
    else if table[0].id == id then Some(table[0])
    else FindExpense(table[1..], id)
  }

  /** `supabase.from('expenses').delete().eq('id', expenseId)`. */
  function ExpensesWithout(table: seq<Expense>, id: string): (r: seq<Expense>)
    ensures forall e :: e in r <==> e in table && e.id != id
  {
    if |table| == 0 then []
    else
      var rest := ExpensesWithout(table[..|table| - 1], id);
      var e := table[|table| - 1];
      assert forall x :: x in table <==> x in table[..|table| - 1] || x == e;
      if e.id != id then rest + [e] else rest
  }

  /** `deleteExpense`: the expense's group is looked up, the expense is
      deleted, and when the lookup found it the group's balances are
      recomputed from what remains. The lookup's error is never read:
      when it fails (`lookupFails`) the expense is deleted all the same and
      the balances are left as they were. Returns the new store and
      whether it threw. */
  function DeleteExpense(keying: Keying, db: Db, expenseId: string, lookupFails: bool, deleteFails: bool, fault: BalanceFault)
    : (r: (Db, bool))
    ensures deleteFails ==> r == (db, true)
    ensures !deleteFails ==> forall e :: e in r.0.expenses <==> e in db.expenses && e.id != expenseId
    ensures !deleteFails && (lookupFails || FindExpense(db.expenses, expenseId).None?) ==>
              r == (db.(expenses := r.0.expenses), false)
    ensures !deleteFails && !lookupFails && FindExpense(db.expenses, expenseId).Some? ==>
              var g := FindExpense(db.expenses, expenseId).value.groupId;
              var u := UpdateBalances(keying, db.balances, r.0.expenses, g, fault);
              && r == (Db(r.0.expenses, u.0), u.1)
              && OtherGroupsKept(r.0.balances, db.balances, g)
    ensures !deleteFails && !lookupFails && fault == NoBalanceFault ==>
              && !r.1
              && var found := FindExpense(db.expenses, expenseId);
                 found.Some? ==>
                   GroupRowsAre(r.0.balances, found.value.groupId, Recompute(keying, r.0.expenses, found.value.groupId))
  {
    if deleteFails then (db, true)
    else
      var found := if lookupFails then None else FindExpense(db.expenses, expenseId);
      var table := ExpensesWithout(db.expenses, expenseId);
      if found.None? then (db.(expenses := table), false)
      else
        var u := UpdateBalances(keying, db.balances, table, found.value.groupId, fault);
        (Db(table, u.0), u.1)
  }

  // ---------------------------------------------------------------------
  // A user id containing '-'

  /** The map after a single split between two different users. */
  lemma NetOfOneSplit<K(!new)>(t: Transfer, enc: (UserId, UserId) -> K)
    requires t.debtor != t.creditor && t.share >= 0.0
    requires enc(t.debtor, t.creditor) != enc(t.creditor, t.debtor)
    ensures var k := enc(t.debtor, t.creditor);
            Net([t], enc) == JsMap.OrderedMap([k], map[k := t.share])
  {
    var k, rev := enc(t.debtor, t.creditor), enc(t.creditor, t.debtor);
    assert [t][..0] == [];
    assert Net([t], enc) == ApplySplit(JsMap.Empty(), k, rev, t.share);
    SplitIntoEmpty(k, rev, t.share);
  }

  /** The entries of a single-entry map above the threshold. */
  lemma OutstandingOne<K(!new)>(k: K, v: real)
    requires v > Epsilon
    ensures Outstanding([k], map[k := v]) == [(k, v)]
  {
    assert [k][..0] == [];
  }

  /** The one expense of the example, as the single split it holds. */
  lemma OneExpenseGroup(e: Expense)
    requires |e.splits| == 1
    ensures Transfers(GroupExpenses([e], e.groupId))
            == [Transfer(e.splits[0].userId, e.paidBy, e.splits[0].shareAmount)]
  {
    assert [e][..0] == [];
    assert GroupExpenses([e], e.groupId) == [e];
    assert Transfers([e]) == Transfers([]) + ExpenseTransfers(e);
  }

  /** The example: member "u-1" owes payer "v" 10 in group "g". */
  function HyphenExample(): seq<Expense>
  {
    [Expense("e1", "g", "Dinner", 10.0, "food", "v", [ExpenseSplit("u-1", 10.0)])]
  }

  /** In the example the rows built by splitting the string key name "u" as
      the debtor and "1" as the creditor. */
  lemma HyphenatedIdMisread()
    ensures Recompute(StringKeys, HyphenExample(), "g") == [BalanceRow("g", "u", Some("1"), 10.0)]
  {
    var e := HyphenExample()[0];
    var t := Transfer("u-1", "v", 10.0);
    OneExpenseGroup(e);
    assert EncodeKey("u-1", "v") == "u-1-v";
    assert EncodeKey("v", "u-1") == "v-u-1";
    NetOfOneSplit(t, EncodeKey);
    var m := Net([t], EncodeKey);
    assert Recompute(StringKeys, HyphenExample(), "g") == EmitRowsAsWritten("g", m);
    OutstandingOne("u-1-v", 10.0);
    assert [("u-1-v", 10.0)][..0] == [];
    DecodeHyphenatedKey();
  }

  lemma DecodeHyphenatedKey()
    ensures DecodeKey("u-1-v") == ("u", Some("1"))
  {
    DecodeTwoHyphens("u", "1", "v");
    assert "u" + ['-'] + "1" + ['-'] + "v" == "u-1-v";
  }

  /** A key with at least two hyphens decodes to its first two fields. */
  lemma DecodeTwoHyphens(a: string, b: string, rest: string)
    requires HyphenFree(a) && HyphenFree(b)
    ensures DecodeKey(a + ['-'] + b + ['-'] + rest) == (a, Some(b))
  {
    var tail := b + ['-'] + rest;
    assert a + ['-'] + b + ['-'] + rest == a + ['-'] + tail;
    var fields := Split(a + ['-'] + tail, '-');
    assert fields == [a] + Split(tail, '-') by {
      SplitAfterFirst(a, '-', tail);
    }
    assert Split(tail, '-') == [b] + Split(rest, '-') by {
      SplitAfterFirst(b, '-', rest);
    }
    assert fields[0] == a && |fields| > 1 && fields[1] == b;
  }

  /** In the example the pair-keyed rows name "u-1" and "v". */
  lemma HyphenatedIdKept()
    ensures Recompute(PairKeys, HyphenExample(), "g") == [BalanceRow("g", "u-1", Some("v"), 10.0)]
  {
    var e := HyphenExample()[0];
    var t := Transfer("u-1", "v", 10.0);
    assert Transfers(GroupExpenses(HyphenExample(), "g")) == [t] by {
      OneExpenseGroup(e);
    }
    var k := ("u-1", "v");
    assert Net([t], PairKey) == JsMap.OrderedMap([k], map[k := 10.0]) by {
      NetOfOneSplit(t, PairKey);
    }
    EmitOnePair("g", k, 10.0);
  }

  /** A single pair-keyed entry above the threshold is written as one row. */
  lemma EmitOnePair(groupId: string, k: (UserId, UserId), v: real)
    requires v > Epsilon
    ensures EmitRows(groupId, JsMap.OrderedMap([k], map[k := v])) == [BalanceRow(groupId, k.0, Some(k.1), v)]
  {
    var m := JsMap.OrderedMap([k], map[k := v]);
    assert Outstanding(m.keys, m.values) == [(k, v)] by {
      OutstandingOne(k, v);
    }
    assert [(k, v)][..0] == [];
    assert PairRows(groupId, [(k, v)]) == [BalanceRow(groupId, k.0, Some(k.1), v)];
  }
}
