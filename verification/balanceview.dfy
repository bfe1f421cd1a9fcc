/** The read side of the `balances` table as the Balances page and the
    dashboard show it: every stored row involving the viewer becomes a
    "you owe" entry when the viewer is its debtor (`from_user_id`) and an
    "owes you" entry otherwise, the two sides are totalled, and the net is
    what is owed to the viewer minus what the viewer owes. The Balances page
    also derives a UPI id and a payment link from the counterparty's name;
    the dashboard derives a display name and an avatar initial, and sums each
    group's expenses. */
module BalanceView {
  import opened JsValues
  import opened Strings

  type UserId = string

  /** A property read off a possibly missing object: `undefined`, `null`, or
      a string. */
  datatype Nullable = Undefined | Null | Str(s: string)

  /** A joined profile as the query returns it: missing, one object, or an
      array of objects (each given here by its `name`). */
  datatype Joined = Missing | Object(name: Nullable) | Many(items: seq<Nullable>)

  /** A `balances` row with its two joined profiles. */
  datatype BalanceRecord = BalanceRecord(
    fromUserId: UserId,
    toUserId: UserId,
    amount: Option<real>,
    fromUser: Joined,
    toUser: Joined)

  datatype Side = YouOwe | OwesYou

  /** An entry as a page shows it. Both pages keep `side` and `amount`; the
      Balances page adds the counterparty's name, first character and UPI
      id, the dashboard a display label and an avatar initial. */
  datatype Shown =
    | PageEntry(side: Side, amount: real, name: Nullable, avatar: Option<char>, upiId: string)
    | DashEntry(side: Side, amount: real, caption: string, initial: string)

  // ---------------------------------------------------------------------
  // What both pages share

  /** `balance.from_user_id === user.id ? 'you-owe' : 'owes-you'`. */
  function SideOf(row: BalanceRecord, viewer: UserId): (s: Side)
    ensures s == YouOwe <==> row.fromUserId == viewer
    ensures s == OwesYou <==> row.fromUserId != viewer
  {
    if row.fromUserId == viewer then YouOwe else OwesYou
  }

  /** `Number(balance.amount || 0)`: a missing amount counts as zero. */
  function AmountOf(amount: Option<real>): (x: real)
    ensures amount.Some? ==> x == amount.value
    ensures amount.None? ==> x == 0.0
  {
    if amount.Some? then amount.value else 0.0
  }

  /** The other party's joined profile: the creditor when the viewer owes,
      the debtor otherwise. */
  function Counterpart(row: BalanceRecord, viewer: UserId): Joined
  {
    if row.fromUserId == viewer then row.toUser else row.fromUser
  }

  // ---------------------------------------------------------------------
  // The Balances page's transform

  /** `joined?.name`: an array has no `name` property. */
  function NameOf(j: Joined): Nullable
  {
    match j
    case Object(n) => n
    case _ => Undefined
  }

  /** `${value}` in a template literal. */
  function TemplateText(n: Nullable): string
  {
    match n
    case Undefined => "undefined"
    case Null => "null"
    case Str(s) => s
  }

  /** `name?.[0]`: the first character, when there is one. */
  function FirstChar(n: Nullable): (c: Option<char>)
    ensures c.Some? <==> n.Str? && |n.s| > 0
    ensures c.Some? ==> c.value == n.s[0]
  {
    if n.Str? && |n.s| > 0 then Some(n.s[0]) else None
  }

  /** `` `${name}@upi`.toLowerCase().replace(/\s/g, '') ``: lower case, free
      of white space, and ending in "@upi" after the normalised name. */
  function UpiId(n: Nullable): string
  {
    RemoveWhitespace(ToLower(TemplateText(n) + "@upi"))
  }

  /** A UPI id is the counterparty's name lower-cased and stripped of white
      space, followed by "@upi"; so it is lower case, free of white space,
      and ends in "@upi". */
  lemma UpiIdShape(n: Nullable)
    ensures UpiId(n) == RemoveWhitespace(ToLower(TemplateText(n))) + "@upi"
    ensures EndsWith(UpiId(n), "@upi")
    ensures forall i :: 0 <= i < |UpiId(n)| ==> !IsWhitespace(UpiId(n)[i]) && !IsUpperAscii(UpiId(n)[i])
  {
    var suffix := "@upi";
    assert forall i :: 0 <= i < |suffix| ==> !IsWhitespace(suffix[i]) && !IsUpperAscii(suffix[i]);
    CleanAppend(TemplateText(n), suffix);
  }

  /** Lower-casing and stripping white space leave a clean suffix as it is. */
  lemma CleanAppend(t: string, suffix: string)
    requires forall i :: 0 <= i < |suffix| ==> !IsWhitespace(suffix[i]) && !IsUpperAscii(suffix[i])
    ensures RemoveWhitespace(ToLower(t + suffix)) == RemoveWhitespace(ToLower(t)) + suffix
    ensures EndsWith(RemoveWhitespace(ToLower(t + suffix)), suffix)
    ensures forall i :: 0 <= i < |RemoveWhitespace(ToLower(t + suffix))| ==>
              !IsUpperAscii(RemoveWhitespace(ToLower(t + suffix))[i])
  {
    ToLowerAppend(t, suffix);
    ToLowerNoUpper(suffix);
    RemoveWhitespaceAppend(ToLower(t), suffix);
    RemoveWhitespaceNone(suffix);
    RemoveWhitespaceNoUpper(ToLower(t + suffix));
    var r := RemoveWhitespace(ToLower(t));
    assert (r + suffix)[|r + suffix| - |suffix|..] == suffix;
  }

  /** One row as the Balances page shows it. */
  function PageTransform(row: BalanceRecord, viewer: UserId): (e: Shown)
    ensures e.PageEntry?
    ensures e.side == YouOwe <==> row.fromUserId == viewer
    ensures e.amount == AmountOf(row.amount)
    ensures e.name == NameOf(Counterpart(row, viewer))
    ensures e.avatar == FirstChar(e.name)
    ensures e.upiId == UpiId(e.name)
  {
    var name := NameOf(Counterpart(row, viewer));
    PageEntry(SideOf(row, viewer), AmountOf(row.amount), name, FirstChar(name), UpiId(name))
  }

  /** `(balancesData || []).map(...)` on the Balances page. */
  function PageBalances(rows: seq<BalanceRecord>, viewer: UserId): (es: seq<Shown>)
    ensures |es| == |rows|
    ensures forall i :: 0 <= i < |rows| ==> es[i] == PageTransform(rows[i], viewer)
  {
    if |rows| == 0 then []
    else
      var front := rows[..|rows| - 1];
      assert forall i :: 0 <= i < |front| ==> front[i] == rows[i];
      PageBalances(front, viewer) + [PageTransform(rows[|rows| - 1], viewer)]
  }

  // ---------------------------------------------------------------------
  // The UPI payment link

  /** One `key=value` query field. */
  function Field(key: string, value: string): string
  {
    key + "=" + value
  }

  /** `upi://pay?pa=${upiId}&pn=${name}&am=${amount}&cu=INR&tn=Splitly Settlement`,
      with the amount's decimal text given; the template is written here as
      its five `key=value` fields joined by `&`. */
  function UpiLink(upiId: string, name: Nullable, amountText: string): string
  {
    "upi://pay" + "?"
      + (Field("pa", upiId) + "&" + (Field("pn", TemplateText(name)) + "&" + (Field("am", amountText) + "&"
      + (Field("cu", "INR") + "&" + Field("tn", "Splitly Settlement")))))
  }

  /** The text after the first `?`, or "" without one. */
  function QueryOf(link: string): string
  {
    if '?' in link then link[IndexOf(link, '?') + 1..] else ""
  }

  /** One `name=value` field, split at its first `=`. */
  function ParamOf(field: string): (string, string)
  {
    if '=' in field then (field[..IndexOf(field, '=')], field[IndexOf(field, '=') + 1..]) else (field, "")
  }

  function ParamsOf(fields: seq<string>): (ps: seq<(string, string)>)
    ensures |ps| == |fields|
  {
    if |fields| == 0 then [] else ParamsOf(fields[..|fields| - 1]) + [ParamOf(fields[|fields| - 1])]
  }

  /** The query parameters of a link, in order. */
  function Params(link: string): seq<(string, string)>
  {
    ParamsOf(Split(QueryOf(link), '&'))
  }

  lemma ParamOfField(key: string, value: string)
    requires '=' !in key
    ensures ParamOf(Field(key, value)) == (key, value)
  {
    IndexOfAfter(key, '=', value);
    var f := key + "=" + value;
    assert f[..|key|] == key;
    assert f[|key| + 1..] == value;
  }

  /** Five fields joined by `sep`, written out. */
  lemma JoinFive(f0: string, f1: string, f2: string, f3: string, f4: string, sep: char)
    ensures Join([f0, f1, f2, f3, f4], sep) == f0 + [sep] + (f1 + [sep] + (f2 + [sep] + (f3 + [sep] + f4)))
  {
    var fs := [f0, f1, f2, f3, f4];
    assert fs[1..][1..][1..][1..] == [f4];
    assert Join(fs[1..][1..][1..], sep) == f3 + [sep] + f4;
    assert Join(fs[1..][1..], sep) == f2 + [sep] + (f3 + [sep] + f4);
    assert Join(fs[1..], sep) == f1 + [sep] + (f2 + [sep] + (f3 + [sep] + f4));
  }

  lemma SplitFive(f0: string, f1: string, f2: string, f3: string, f4: string, sep: char)
    requires sep !in f0 && sep !in f1 && sep !in f2 && sep !in f3 && sep !in f4
    ensures Split(f0 + [sep] + (f1 + [sep] + (f2 + [sep] + (f3 + [sep] + f4))), sep) == [f0, f1, f2, f3, f4]
  {
    JoinFive(f0, f1, f2, f3, f4, sep);
    SplitJoin([f0, f1, f2, f3, f4], sep);
  }

  lemma ParamsOfFive(fs: seq<string>)
    requires |fs| == 5
    ensures ParamsOf(fs) == [ParamOf(fs[0]), ParamOf(fs[1]), ParamOf(fs[2]), ParamOf(fs[3]), ParamOf(fs[4])]
  {
    assert ParamsOf(fs[..1]) == [ParamOf(fs[0])] by { assert fs[..1][..0] == []; }
    assert ParamsOf(fs[..2]) == ParamsOf(fs[..1]) + [ParamOf(fs[1])] by { assert fs[..2][..1] == fs[..1]; }
    assert ParamsOf(fs[..3]) == ParamsOf(fs[..2]) + [ParamOf(fs[2])] by { assert fs[..3][..2] == fs[..2]; }
    assert ParamsOf(fs[..4]) == ParamsOf(fs[..3]) + [ParamOf(fs[3])] by { assert fs[..4][..3] == fs[..3]; }
    assert ParamsOf(fs) == ParamsOf(fs[..4]) + [ParamOf(fs[4])];
  }

  lemma FieldFree(key: string, value: string, c: char)
    requires c !in key && c != '=' && c !in value
    ensures c !in Field(key, value)
  {
    assert forall x :: x in Field(key, value) ==> x in key || x == '=' || x in value;
  }

  /** Five fields joined by `&`, none holding `&` and no key holding `=`,
      read back as their key/value pairs. */
  lemma ParamsOfFields(k0: string, v0: string, k1: string, v1: string, k2: string, v2: string,
                       k3: string, v3: string, k4: string, v4: string)
    requires '=' !in k0 && '=' !in k1 && '=' !in k2 && '=' !in k3 && '=' !in k4
    requires '&' !in k0 && '&' !in k1 && '&' !in k2 && '&' !in k3 && '&' !in k4
    requires '&' !in v0 && '&' !in v1 && '&' !in v2 && '&' !in v3 && '&' !in v4
    ensures ParamsOf(Split(Field(k0, v0) + "&" + (Field(k1, v1) + "&" + (Field(k2, v2) + "&"
              + (Field(k3, v3) + "&" + Field(k4, v4)))), '&'))
            == [(k0, v0), (k1, v1), (k2, v2), (k3, v3), (k4, v4)]
  {
    FieldFree(k0, v0, '&');
    FieldFree(k1, v1, '&');
    FieldFree(k2, v2, '&');
    FieldFree(k3, v3, '&');
    FieldFree(k4, v4, '&');
    SplitFive(Field(k0, v0), Field(k1, v1), Field(k2, v2), Field(k3, v3), Field(k4, v4), '&');
    ParamsOfFive([Field(k0, v0), Field(k1, v1), Field(k2, v2), Field(k3, v3), Field(k4, v4)]);
    ParamOfField(k0, v0);
    ParamOfField(k1, v1);
    ParamOfField(k2, v2);
    ParamOfField(k3, v3);
    ParamOfField(k4, v4);
  }

  lemma ParamsOfLink(prefix: string, k0: string, v0: string, k1: string, v1: string, k2: string, v2: string,
                     k3: string, v3: string, k4: string, v4: string)
    requires '?' !in prefix
    requires '=' !in k0 && '=' !in k1 && '=' !in k2 && '=' !in k3 && '=' !in k4
    requires '&' !in k0 && '&' !in k1 && '&' !in k2 && '&' !in k3 && '&' !in k4
    requires '&' !in v0 && '&' !in v1 && '&' !in v2 && '&' !in v3 && '&' !in v4
    ensures Params(prefix + "?" + (Field(k0, v0) + "&" + (Field(k1, v1) + "&" + (Field(k2, v2) + "&"
              + (Field(k3, v3) + "&" + Field(k4, v4))))))
            == [(k0, v0), (k1, v1), (k2, v2), (k3, v3), (k4, v4)]
  {
    var q := Field(k0, v0) + "&" + (Field(k1, v1) + "&" + (Field(k2, v2) + "&" + (Field(k3, v3) + "&" + Field(k4, v4))));
    IndexOfAfter(prefix, '?', q);
    ParamsOfFields(k0, v0, k1, v1, k2, v2, k3, v3, k4, v4);
  }

  /** When none of the three values contains `&`, reading the link's query
      back yields payee `pa`, name `pn`, amount `am`, currency INR and the
      fixed note, in that order. */
  lemma UpiLinkParams(upiId: string, name: Nullable, amountText: string)
    requires '&' !in upiId && '&' !in TemplateText(name) && '&' !in amountText
    ensures Params(UpiLink(upiId, name, amountText))
              == [("pa", upiId), ("pn", TemplateText(name)), ("am", amountText),
                  ("cu", "INR"), ("tn", "Splitly Settlement")]
  {
    ParamsOfLink("upi://pay", "pa", upiId, "pn", TemplateText(name), "am", amountText, "cu", "INR", "tn", "Splitly Settlement");
  }

  // ---------------------------------------------------------------------
  // The dashboard's transform

  /** `Array.isArray(j) ? j[0] : j`, then `?.name`. */
  function DashName(j: Joined): Nullable
  {
    match j
    case Missing => Undefined
    case Object(n) => n
    case Many(items) => if |items| > 0 then items[0] else Undefined
  }

  /** `data?.name || 'User'`: never empty. */
  function DisplayName(n: Nullable): (s: string)
    ensures s != ""
    ensures n.Str? && n.s != "" ==> s == n.s
    ensures !(n.Str? && n.s != "") ==> s == "User"
  {
    if n.Str? && n.s != "" then n.s else "User"
  }

  /** `name[0]?.toUpperCase() || 'U'`: one character, never a lower-case
      ASCII letter; the upper-cased first character when there is one. */
  function Initial(name: string): (a: string)
    ensures |a| == 1 && !('a' <= a[0] <= 'z')
    ensures |name| > 0 ==> a == [UpperChar(name[0])]
  {
    OrElse(if |name| > 0 then Some([UpperChar(name[0])]) else None, "U")
  }

  /** One row as the dashboard shows it. The avatar always comes from the
      label, which is never empty, so the 'U' fallback only shows as the
      initial of 'User'. */
  function DashTransform(row: BalanceRecord, viewer: UserId): (e: Shown)
    ensures e.DashEntry?
    ensures e.side == YouOwe <==> row.fromUserId == viewer
    ensures e.amount == AmountOf(row.amount)
    ensures e.caption == DisplayName(DashName(Counterpart(row, viewer)))
    ensures e.caption != "" && e.initial == [UpperChar(e.caption[0])]
  {
    var caption := DisplayName(DashName(Counterpart(row, viewer)));
    DashEntry(SideOf(row, viewer), AmountOf(row.amount), caption, Initial(caption))
  }

  /** The dashboard's balances query is the Balances page's query with
      `.limit(3)`. */
  const DashLimit: nat := 3

  /** The rows the dashboard's query returns: the first `DashLimit` of the
      rows the Balances page receives, all of them when there are no more. */
  function DashRows(rows: seq<BalanceRecord>): (r: seq<BalanceRecord>)
    ensures |r| <= DashLimit && r <= rows
    ensures |r| == if |rows| <= DashLimit then |rows| else DashLimit
    ensures |rows| <= DashLimit <==> r == rows
  {
    if |rows| <= DashLimit then rows else rows[..DashLimit]
  }

  /** `(balancesData || []).map(...)` on the dashboard. */
  function DashBalances(rows: seq<BalanceRecord>, viewer: UserId): (es: seq<Shown>)
    ensures |es| == |rows|
    ensures forall i :: 0 <= i < |rows| ==> es[i] == DashTransform(rows[i], viewer)
  {
    if |rows| == 0 then []
    else DashBalances(rows[..|rows| - 1], viewer) + [DashTransform(rows[|rows| - 1], viewer)]
  }

  // ---------------------------------------------------------------------
  // Partition, totals and net

  /** `balances.filter(b => b.type === side)`. */
  function OfSide(xs: seq<Shown>, side: Side): (r: seq<Shown>)
    ensures forall x :: x in r <==> x in xs && x.side == side
    ensures |r| <= |xs|
  {
    if |xs| == 0 then []
    else
      var front := OfSide(xs[..|xs| - 1], side);
      var last := xs[|xs| - 1];
      assert forall x :: x in xs <==> x in xs[..|xs| - 1] || x == last;
      if last.side == side then front + [last] else front
  }

  /** `.reduce((sum, b) => sum + b.amount, 0)`. */
  function Total(xs: seq<Shown>): real
  {
    if |xs| == 0 then 0.0 else Total(xs[..|xs| - 1]) + xs[|xs| - 1].amount
  }

  /** `totalOwedToYou - totalYouOwe` (the dashboard's `totalOwed - totalOwe`). */
  function NetBalance(xs: seq<Shown>): real
  {
    Total(OfSide(xs, OwesYou)) - Total(OfSide(xs, YouOwe))
  }

  lemma OfSideAppend(xs: seq<Shown>, x: Shown, side: Side)
    ensures OfSide(xs + [x], side) == OfSide(xs, side) + (if x.side == side then [x] else [])
  {
    assert (xs + [x])[..|xs|] == xs;
  }

  lemma TotalAppend(xs: seq<Shown>, x: Shown)
    ensures Total(xs + [x]) == Total(xs) + x.amount
  {
    assert (xs + [x])[..|xs|] == xs;
  }

  lemma MultisetOfLast<T>(xs: seq<T>)
    requires |xs| > 0
    ensures multiset(xs) == multiset(xs[..|xs| - 1]) + multiset{xs[|xs| - 1]}
  {
    assert xs == xs[..|xs| - 1] + [xs[|xs| - 1]];
  }

  /** The two sides split the entries: together they hold every entry
      exactly once. */
  lemma {:induction false} Partition(xs: seq<Shown>)
    ensures multiset(OfSide(xs, YouOwe)) + multiset(OfSide(xs, OwesYou)) == multiset(xs)
  {
    if |xs| > 0 {
      var front, last := xs[..|xs| - 1], xs[|xs| - 1];
      Partition(front);
      MultisetOfLast(xs);
      if last.side == YouOwe {
        assert OfSide(xs, YouOwe) == OfSide(front, YouOwe) + [last];
        assert OfSide(xs, OwesYou) == OfSide(front, OwesYou);
      } else {
        assert OfSide(xs, OwesYou) == OfSide(front, OwesYou) + [last];
        assert OfSide(xs, YouOwe) == OfSide(front, YouOwe);
      }
    }
  }

  /** So the two sides' sizes add up to the number of entries. */
  lemma PartitionSizes(xs: seq<Shown>)
    ensures |OfSide(xs, YouOwe)| + |OfSide(xs, OwesYou)| == |xs|
  {
    Partition(xs);
    assert |multiset(OfSide(xs, YouOwe)) + multiset(OfSide(xs, OwesYou))| == |multiset(xs)|;
  }

  /** The two sides' totals add up to the total of all entries. */
  lemma {:induction false} PartitionTotals(xs: seq<Shown>)
    ensures Total(OfSide(xs, YouOwe)) + Total(OfSide(xs, OwesYou)) == Total(xs)
  {
    if |xs| > 0 {
      var front, last := xs[..|xs| - 1], xs[|xs| - 1];
      PartitionTotals(front);
      var owe, owed := OfSide(front, YouOwe), OfSide(front, OwesYou);
      if last.side == YouOwe {
        assert OfSide(xs, YouOwe) == owe + [last] && OfSide(xs, OwesYou) == owed;
        TotalAppend(owe, last);
      } else {
        assert OfSide(xs, OwesYou) == owed + [last] && OfSide(xs, YouOwe) == owe;
        TotalAppend(owed, last);
      }
    }
  }

  /** An entry counted from the viewer's side: plus when owed to the viewer,
      minus when the viewer owes. */
  function Signed(x: Shown): real
  {
    if x.side == OwesYou then x.amount else -x.amount
  }

  function SignedTotal(xs: seq<Shown>): real
  {
    if |xs| == 0 then 0.0 else SignedTotal(xs[..|xs| - 1]) + Signed(xs[|xs| - 1])
  }

  /** The net is the signed sum over all entries. */
  lemma {:induction false} NetIsSignedTotal(xs: seq<Shown>)
    ensures NetBalance(xs) == SignedTotal(xs)
  {
    if |xs| > 0 {
      var front, last := xs[..|xs| - 1], xs[|xs| - 1];
      NetIsSignedTotal(front);
      var owe, owed := OfSide(front, YouOwe), OfSide(front, OwesYou);
      if last.side == YouOwe {
        assert OfSide(xs, YouOwe) == owe + [last] && OfSide(xs, OwesYou) == owed;
        TotalAppend(owe, last);
      } else {
        assert OfSide(xs, OwesYou) == owed + [last] && OfSide(xs, YouOwe) == owe;
        TotalAppend(owed, last);
      }
    }
  }

  /** The viewer's net position read straight off the stored rows. */
  function RowsNet(rows: seq<BalanceRecord>, viewer: UserId): real
  {
    if |rows| == 0 then 0.0
    else
      var row := rows[|rows| - 1];
      RowsNet(rows[..|rows| - 1], viewer)
        + (if row.fromUserId == viewer then -AmountOf(row.amount) else AmountOf(row.amount))
  }

  lemma {:induction false} PageSignedTotal(rows: seq<BalanceRecord>, viewer: UserId)
    ensures SignedTotal(PageBalances(rows, viewer)) == RowsNet(rows, viewer)
  {
    if |rows| > 0 {
      PageSignedTotal(rows[..|rows| - 1], viewer);
    }
  }

  lemma {:induction false} DashSignedTotal(rows: seq<BalanceRecord>, viewer: UserId)
    ensures SignedTotal(DashBalances(rows, viewer)) == RowsNet(rows, viewer)
  {
    if |rows| > 0 {
      DashSignedTotal(rows[..|rows| - 1], viewer);
    }
  }

  /** Each page's net is the viewer's net over the rows it received: the
      amounts the viewer is owed minus the amounts the viewer owes. The
      dashboard receives at most three of the rows, so the two pages agree
      when the viewer has at most three balance rows. */
  lemma PagesAgreeOnNet(rows: seq<BalanceRecord>, viewer: UserId)
    ensures NetBalance(PageBalances(rows, viewer)) == RowsNet(rows, viewer)
    ensures NetBalance(DashBalances(DashRows(rows), viewer)) == RowsNet(DashRows(rows), viewer)
    ensures |rows| <= DashLimit ==>
              NetBalance(DashBalances(DashRows(rows), viewer)) == NetBalance(PageBalances(rows, viewer))
  {
    NetIsSignedTotal(PageBalances(rows, viewer));
    PageSignedTotal(rows, viewer);
    NetIsSignedTotal(DashBalances(DashRows(rows), viewer));
    DashSignedTotal(DashRows(rows), viewer);
  }

  /** Four rows of 1 owed to the viewer: the Balances page shows a net of 4,
      the dashboard's "Net Balance" 3. */
  lemma LimitedDashboardNet()
    ensures var row := BalanceRecord("u", "v", Some(1.0), Missing, Missing);
            var rows := [row, row, row, row];
            && NetBalance(PageBalances(rows, "v")) == 4.0
            && NetBalance(DashBalances(DashRows(rows), "v")) == 3.0
  {
    var row := BalanceRecord("u", "v", Some(1.0), Missing, Missing);
    var rows := [row, row, row, row];
    var shown := DashRows(rows);
    assert |shown| == 3 && forall i :: 0 <= i < 3 ==> shown[i] == row;
    assert RowsNet(rows, "v") == 4.0 by { RowsNetOwedAlike(rows, "v", 1.0); }
    assert RowsNet(shown, "v") == 3.0 by { RowsNetOwedAlike(shown, "v", 1.0); }
    PagesAgreeOnNet(rows, "v");
  }

  /** Rows all owed to the viewer, each of amount `x`, net to `x` per row. */
  lemma {:induction false} RowsNetOwedAlike(rows: seq<BalanceRecord>, viewer: UserId, x: real)
    requires forall i :: 0 <= i < |rows| ==> rows[i].fromUserId != viewer && AmountOf(rows[i].amount) == x
    ensures RowsNet(rows, viewer) == (|rows| as real) * x
  {
    if |rows| > 0 {
      RowsNetOwedAlike(rows[..|rows| - 1], viewer, x);
    }
  }

  /** The caption under the net: three distinct captions, one per sign. */
  function NetLabel(net: real): (text: string)
    ensures text == "You're getting back overall" <==> net > 0.0
    ensures text == "You owe overall" <==> net < 0.0
    ensures text == "All settled up!" <==> net == 0.0
  {
    if net > 0.0 then "You're getting back overall"
    else if net < 0.0 then "You owe overall"
    else "All settled up!"
  }

  // ---------------------------------------------------------------------
  // The dashboard's group cards

  datatype GroupCard = GroupCard(total: real, expenseCount: nat, members: nat)

  /** `.reduce((sum, e) => sum + Number(e.amount || 0), 0)`. */
  function SumAmounts(amounts: seq<Option<real>>): real
  {
    if |amounts| == 0 then 0.0 else SumAmounts(amounts[..|amounts| - 1]) + AmountOf(amounts[|amounts| - 1])
  }

  /** The amounts that are present, in order. */
  function Present(amounts: seq<Option<real>>): (xs: seq<real>)
    ensures forall x :: x in xs <==> Some(x) in amounts
  {
    if |amounts| == 0 then []
    else
      var front := Present(amounts[..|amounts| - 1]);
      var last := amounts[|amounts| - 1];
      assert forall a :: a in amounts <==> a in amounts[..|amounts| - 1] || a == last;
      if last.Some? then front + [last.value] else front
  }

  function Sum(xs: seq<real>): real
  {
    if |xs| == 0 then 0.0 else Sum(xs[..|xs| - 1]) + xs[|xs| - 1]
  }

  lemma {:induction false} SumAppend(xs: seq<real>, x: real)
    ensures Sum(xs + [x]) == Sum(xs) + x
  {
    assert (xs + [x])[..|xs|] == xs;
  }

  lemma {:induction false} SumAmountsIsSumOfPresent(amounts: seq<Option<real>>)
    ensures SumAmounts(amounts) == Sum(Present(amounts))
  {
    if |amounts| > 0 {
      var front := amounts[..|amounts| - 1];
      SumAmountsIsSumOfPresent(front);
      if amounts[|amounts| - 1].Some? {
        SumAppend(Present(front), amounts[|amounts| - 1].value);
      }
    }
  }

  /** A group's card: its total is the sum of the amounts present (missing
      ones count nothing), its count the number of expenses, and the member
      count is always shown as 1; with no expense list both are 0. */
  function GroupCardOf(expenses: Option<seq<Option<real>>>): (c: GroupCard)
    ensures c.members == 1
    ensures expenses.None? ==> c.total == 0.0 && c.expenseCount == 0
    ensures expenses.Some? ==> c.total == Sum(Present(expenses.value)) && c.expenseCount == |expenses.value|
  {
    if expenses.None? then GroupCard(0.0, 0, 1)
    else
      SumAmountsIsSumOfPresent(expenses.value);
      GroupCard(SumAmounts(expenses.value), |expenses.value|, 1)
  }
}
