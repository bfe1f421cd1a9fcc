# Splitly core, modelled in Dafny

Splitly is an expense splitter for groups. A member records an expense that
they paid. The expense is split into equal shares among the listed members.
The group's stored balances ("A owes B x") are then recomputed from all of
the group's expenses.

Both the overall route and the `useBalances` hook derive "who owes the
viewer, whom the viewer owes" across groups from the raw splits. The
Balances page and the dashboard show the stored balance rows, split into
"you owe" and "owes you", with a net figure. The analytics view totals
spending per category. Around these sit:

- the API routes that create expenses and groups;
- the dashboard's forms;
- the request middleware;
- the profile and privacy pages.

The model is pure functions over immutable datatypes.

- Database reads are parameters, for example the expense table.
- Database writes are results: the list of requests issued, or the new table contents.
- Failures of individual requests are fault parameters, including requests whose error the code never reads: the lookup in `deleteExpense` and the compensating delete of the group form. The account deletion's table deletions are the one exception, because their failure changes neither the requests issued nor the outcome.

A JavaScript `Map` or a plain object used as a map becomes
`JsMap.OrderedMap`: the keys in first-insertion order plus a Dafny map.
Setting an existing key keeps its position, and deleting a key removes it.
Amounts are exact `real`s.

Modules, one per source concern:

| module | file | models |
|---|---|---|
| `JsValues`, `Strings` | strings.dfy | `a \|\| b` on strings, `split`/`join`, `trim`, white-space removal, ASCII case mapping, UTF-16 length, code-unit order |
| `JsMap` | jsmap.dfy | insertion-ordered `Map` with `set`, `get`, `delete` |
| `Netting` | netting.dfy | one split netted against the opposite direction of a pair |
| `GroupLedger` | group_ledger.dfy | `addExpense`, `deleteExpense`, `updateBalances` of the client library |
| `SpendingStats` | spending.dfy | `getGroupAnalytics`, `getUserSpendingStats`, the analytics page's chart and breakdown |
| `OverallBalances` | overall.dfy | `GET /api/balances` and the `useBalances` hook |
| `BalanceView` | balanceview.dfy | the Balances page's and the dashboard's view of the stored balances; group cards; the UPI link |
| `ExpenseCreation` | creation.dfy | the `useExpenses` hook's `createExpense` and `POST /api/auth/expenses` |
| `DashboardForms` | forms.dfy | the dashboard's add-expense, create-group and add-reminder forms |
| `RouteGuard` | routeguard.dfy | the middleware and its matcher |
| `PrivacySettings` | privacy.dfy | the password form and account deletion |
| `ProfileForm` | profile.dfy | loading the profile and cancelling an edit |
| `GroupsApi` | groupsapi.dfy | `GET` and `POST /api/auth/groups` |

The group ledger's fold is defined once. It is generic over the function
that turns a (debtor, creditor) pair into a map key.

- The application's key is the string `${debtor}-${creditor}` (`GroupLedger.EncodeKey`).
- When the rows are written, that key is split on '-' (`GroupLedger.DecodeKey`).
- The corrected fold keys the same map by the pair itself (`GroupLedger.PairKey`). See Findings.

The store operations (`UpdateBalances`, `AddExpense`, `DeleteExpense`) take
the keying as a parameter (`GroupLedger.Keying`):

- `StringKeys` is the code as written.
- `PairKeys` is the corrected fold.
- For ids without '-' the two write the same rows (`GroupLedger.KeyingsAgree`).

## Model

| member | source | states |
|---|---|---|
| GroupLedger.ExpenseTransfers | src/lib/supabaseClient.ts:319-323 | each split of an expense becomes one transfer: the split's member owes the payer the split's share |
| GroupLedger.StepNets | src/lib/supabaseClient.ts:324-336 | a split between two different users (the payer's own split is filtered out before) changes the map exactly as netting prescribes |
| Netting.ApplySplitNets | src/lib/supabaseClient.ts:328-336 | the Map operations of one split store the netted values: the reverse debt shrinks when it exceeds the share, otherwise the forward debt becomes current + share − reverse and the reverse entry goes |
| Netting.ApplySplitValid | src/lib/supabaseClient.ts:331-336 | the Map stays well formed: every key is listed once, and the listed keys are exactly the stored ones |
| Netting.NettedDifference | src/lib/supabaseClient.ts:331-336 | a split raises "forward minus reverse" by exactly the share, whichever branch runs |
| Netting.NettedFrame | src/lib/supabaseClient.ts:331-336 | no key other than the pair's two directions changes |
| Netting.NettedNonNegative | src/lib/supabaseClient.ts:331-336 | with a non-negative share, no stored debt becomes negative |
| Netting.NettedOneDirection | src/lib/supabaseClient.ts:331-336 | if at most one direction of the pair was stored before, the same holds after |
| Netting.SplitIntoEmpty | src/lib/supabaseClient.ts:328-336 | the first split of a pair stores exactly its share, under the forward key |
| GroupLedger.NetValid | src/lib/supabaseClient.ts:317-339 | the balance map after all splits is well formed |
| GroupLedger.NetKeys | src/lib/supabaseClient.ts:323-336 | every key of the map is the key of two different users who occur in the splits |
| GroupLedger.Conservation | src/lib/supabaseClient.ts:317-339 | for two distinct users, stored debt d→c minus stored debt c→d equals total shares d owes c minus total c owes d, under any key encoding that is injective on the ids present |
| GroupLedger.NetNonNegative | src/lib/supabaseClient.ts:317-339 | with non-negative shares, every stored debt is non-negative |
| GroupLedger.NetOneDirection | src/lib/supabaseClient.ts:317-339 | with non-negative shares and an injective key encoding, no pair is stored in both directions |
| GroupLedger.NetOwed | src/lib/supabaseClient.ts:317-339 | the stored debt d→c is max(0, owed d→c − owed c→d) |
| GroupLedger.OwedOneExpense | src/lib/supabaseClient.ts:319-323 | on one expense, d owes c the sum of d's shares when c paid it, and nothing otherwise |
| GroupLedger.OwedMatchesExpenses | src/lib/supabaseClient.ts:319-339 | what d owes c over the flattened splits equals the expense-by-expense sum of d's shares on expenses c paid |
| GroupLedger.DecodeEncodeIff | src/lib/supabaseClient.ts:325-351 | splitting the key on '-' gives back both ids exactly when neither id contains '-' |
| GroupLedger.EncodeKeyInjective | src/lib/supabaseClient.ts:325-326 | on hyphen-free ids, different (debtor, creditor) pairs get different string keys |
| GroupLedger.SameLengthEncodeKeyInjective | src/lib/supabaseClient.ts:325-326 | the string key also tells apart the pairs of ids of one common length, such as UUIDs, whatever characters they hold |
| GroupLedger.SameLengthNetOwed | src/lib/supabaseClient.ts:317-339 | with ids of one common length and non-negative shares, the string-keyed map stores for (d, c) exactly the positive part of what d owes c minus what c owes d |
| GroupLedger.PairKeyInjective | src/lib/supabaseClient.ts:325-326 | keying by the id pair itself is injective on all ids |
| GroupLedger.Outstanding | src/lib/supabaseClient.ts:348-349 | the entries kept are exactly the map's entries whose amount exceeds 0.01 |
| GroupLedger.PairRows | src/lib/supabaseClient.ts:350-358 | one row per kept entry, carrying the group, the two ids and the amount |
| GroupLedger.DecodedRows | src/lib/supabaseClient.ts:350-358 | one row per kept entry, the ids taken from the first two fields of the key split on '-' |
| GroupLedger.EmitRows | src/lib/supabaseClient.ts:348-358 | every row comes from a stored debt above 0.01, and every such debt yields a row |
| GroupLedger.EmitRowsAsWritten | src/lib/supabaseClient.ts:348-358 | every row is the decoding of a stored key whose amount exceeds 0.01, and every such key yields its decoded row |
| GroupLedger.GroupExpenses | src/lib/supabaseClient.ts:303-312 | exactly the expenses of the requested group |
| GroupLedger.RecomputedRowsShape | src/lib/supabaseClient.ts:348-358 | under either keying, every recomputed row belongs to the group and exceeds 0.01 |
| GroupLedger.RecomputedRowIff | src/lib/supabaseClient.ts:301-358 | keyed by the pair, with non-negative shares, the row "d owes c net" is written exactly when net > 0.01. Here net is d's shares on c's expenses minus c's shares on d's expenses in that group |
| GroupLedger.NetOwedOnExpenses | src/lib/supabaseClient.ts:317-339 | the pair-keyed map's entry (d, c) is max(0, net) with net read off the expenses |
| GroupLedger.RowOfPair | src/lib/supabaseClient.ts:348-358 | an entry holding max(0, net) yields the row with amount net exactly when net > 0.01 |
| GroupLedger.TransfersNonNegative | src/lib/supabaseClient.ts:319-323 | non-negative split shares give non-negative transfers |
| GroupLedger.TransfersHyphenFree | src/lib/supabaseClient.ts:319-325 | when no payer or member id holds '-', neither does any debtor or creditor of the splits |
| GroupLedger.IdsHyphenFree | src/lib/supabaseClient.ts:325-326 | when no debtor or creditor holds '-', no id used in a key does |
| GroupLedger.DecodeNetKey | src/lib/supabaseClient.ts:325-351 | with ids free of '-', each stored string key splits back into the two different ids it was built from |
| GroupLedger.SameAmount | src/lib/supabaseClient.ts:317-339 | with ids free of '-' and non-negative shares, both keyings store the same amount for a pair |
| GroupLedger.StringRowIsPairRow | src/lib/supabaseClient.ts:348-358 | with ids free of '-' and non-negative shares, every row decoded from the string-keyed map is a pair-keyed row |
| GroupLedger.PairRowIsStringRow | src/lib/supabaseClient.ts:348-358 | with ids free of '-' and non-negative shares, every pair-keyed row is also decoded from the string-keyed map |
| GroupLedger.KeyedRowsAgree | src/lib/supabaseClient.ts:317-358 | with ids free of '-' and non-negative shares, the decoded string-keyed rows are exactly the pair-keyed rows |
| GroupLedger.KeyingsAgree | src/lib/supabaseClient.ts:301-358 | for a table whose ids hold no '-' and whose shares are non-negative, the rows the application writes for a group are exactly the pair-keyed rows |
| GroupLedger.RowsOutside | src/lib/supabaseClient.ts:342-345 | deleting the group's balances keeps exactly the rows of other groups |
| GroupLedger.UpdateBalances | src/lib/supabaseClient.ts:301-367 | under either keying, other groups' rows are never touched. A failed fetch changes nothing and throws. Otherwise the group's rows become exactly the recomputed ones. A failed insert leaves the group with no rows. A failed delete leaves old and new rows side by side. It throws exactly on a fetch failure or on a failed non-empty insert |
| GroupLedger.UpdateBalancesIdempotent | src/lib/supabaseClient.ts:341-366 | recomputing twice from the same expenses leaves the same rows as recomputing once |
| GroupLedger.UpdateBalancesKeyingsAgree | src/lib/supabaseClient.ts:301-367 | for a table whose ids hold no '-' and whose shares are non-negative, the application's store holds the same rows and throws in the same cases as the pair-keyed store |
| GroupLedger.EqualSplits | src/lib/supabaseClient.ts:238-246 | one split per listed member, each of amount / number of members |
| GroupLedger.EqualSplitsTotal | src/lib/supabaseClient.ts:238-246 | with at least one member, the shares add up to the amount |
| GroupLedger.AddExpense | src/lib/supabaseClient.ts:213-258 | without a user, or when the expense insert fails, nothing changes. When the splits insert fails, the expense is stored without splits, the balances are untouched and nothing is returned. Otherwise the expense with equal splits is appended and the group is recomputed: a clean run sets the group's rows from the new table under the chosen keying, and a failing recompute leaves what `updateBalances` leaves, returning nothing exactly when it throws. A returned expense is paid by the user. Other groups' rows are kept |
| GroupLedger.FindExpense | src/lib/supabaseClient.ts:282-286 | the lookup finds an expense with that id, or reports that none has it |
| GroupLedger.ExpensesWithout | src/lib/supabaseClient.ts:288-291 | exactly the expenses whose id differs |
| GroupLedger.DeleteExpense | src/lib/supabaseClient.ts:281-298 | a failed delete changes nothing and throws. Otherwise exactly the other expenses remain. When the lookup fails (its error is never read) or finds nothing, the balances are left as they were and nothing throws. When it finds the expense, the balances and the throw are those of recomputing its group from what remains, under the chosen keying: other groups' rows are kept, and a failing recompute throws or leaves rows exactly as `updateBalances` does |
| GroupLedger.NetOfOneSplit | src/lib/supabaseClient.ts:328-336 | a single split between two users leaves one entry, its share under the forward key |
| GroupLedger.HyphenatedIdMisread | src/lib/supabaseClient.ts:325-358 | with the string key, a debtor "u-1" owing "v" 10 is written as a row from "u" to "1" |
| GroupLedger.DecodeHyphenatedKey | src/lib/supabaseClient.ts:351 | the key "u-1-v" decodes to ("u", "1") |
| GroupLedger.DecodeTwoHyphens | src/lib/supabaseClient.ts:351 | a key with two separators after hyphen-free fields decodes to those two fields, dropping the rest |
| GroupLedger.HyphenatedIdKept | src/lib/supabaseClient.ts:325-358 | keyed by the pair, the same expense gives the row from "u-1" to "v" |
| SpendingStats.PropertyKey | src/lib/supabaseClient.ts:427 | a category is its own property key; a missing (null) category is the key "null" |
| SpendingStats.Accumulate | src/lib/supabaseClient.ts:427 | adding an item raises its category's total by the item's amount; a new category is appended last |
| SpendingStats.SumOverAccumulate | src/lib/supabaseClient.ts:427 | accumulating an item raises the sum of all category totals by the item's amount |
| SpendingStats.TallyTotals | src/lib/supabaseClient.ts:426-429 | the object has one property per distinct category, holding that category's total |
| SpendingStats.TallyConserves | src/lib/supabaseClient.ts:448-454 | the category totals add up to the total spent |
| SpendingStats.CategoriesFacts | src/lib/supabaseClient.ts:426-429 | a category that never occurs totals 0; there are no categories exactly when there are no expenses |
| SpendingStats.CategoryTotalBounded | src/lib/supabaseClient.ts:448-454 | with no negative amount, a category's total lies between 0 and the total spent |
| SpendingStats.Entries | src/lib/supabaseClient.ts:431-434 | `Object.entries` lists the properties in insertion order with their values |
| SpendingStats.CategoryEntries | src/lib/supabaseClient.ts:426-434 | one entry per distinct category, no category twice, each carrying that category's total |
| SpendingStats.SortDescending | src/lib/supabaseClient.ts:456-457 | the entries, rearranged, largest first |
| SpendingStats.SortedHeadIsMaximal | src/lib/supabaseClient.ts:456-457 | the first entry after sorting is at least as large as every entry and is one of them |
| SpendingStats.InsertDescendingHead | src/lib/supabaseClient.ts:456-457 | inserting into a sorted list keeps the list's head when it is at least as large, and puts the new entry first otherwise |
| SpendingStats.SortedHeadIsFirstMaximal | src/lib/supabaseClient.ts:456-457 | the sort is stable: the first entry after sorting is the earliest entry with the largest total |
| SpendingStats.TopComesFirst | src/lib/supabaseClient.ts:456-457 | among entries of distinct categories, every entry before the top category's is strictly smaller |
| SpendingStats.PaidBy | src/lib/supabaseClient.ts:441-444 | exactly the expenses the user paid |
| SpendingStats.InGroup | src/lib/supabaseClient.ts:418-421 | exactly the expenses of the group |
| SpendingStats.GroupAnalytics | src/lib/supabaseClient.ts:417-435 | it fails exactly when the query fails. Otherwise one entry per distinct category among the group's expenses, none twice, each with its category's total |
| SpendingStats.UserSpendingStats | src/lib/supabaseClient.ts:437-464 | signed out it throws 'Not authenticated'; signed in it throws exactly when the query fails, and returns statistics otherwise. They hold the sum of the user's expenses, their count, and a top category that exists exactly when there are expenses. That category's total is at least every other category's total, and every category whose entry comes before it totals strictly less |
| SpendingStats.CategoryOrDefault | src/app/analytics/page.tsx:40 | a missing or empty category becomes '🍕' (on the chart, and in the expenses route's stored row), so the result is never empty |
| SpendingStats.ChartData | src/app/analytics/page.tsx:33-48 | one chart entry per distinct label among the user's expenses, each with the label's total |
| SpendingStats.NoEmptyChartCategory | src/app/analytics/page.tsx:39-43 | the empty string is never a chart category |
| SpendingStats.Breakdown | src/app/analytics/page.tsx:236-237 | the chart entries rearranged, largest first |
| SpendingStats.TopCategoryPercentage | src/app/analytics/page.tsx:73-75 | 0 when the stats are missing or either figure is 0; otherwise top / total × 100 |
| SpendingStats.PercentageBounded | src/app/analytics/page.tsx:73-75 | with no negative amount, the percentage shown for the user's stats lies in [0, 100] |
| OverallBalances.ExpenseContributions | src/app/api/balances/route.ts:40-42 | each split of an expense is visited once, in order, together with the expense's payer |
| OverallBalances.SortPair | src/app/api/balances/route.ts:44 | the two ids in non-decreasing code-unit order |
| OverallBalances.PairKeySymmetric | src/app/api/balances/route.ts:44 | both orders of a pair give the same key |
| OverallBalances.PairKeyInjective | src/app/api/balances/route.ts:44 | for hyphen-free ids, two keys coincide exactly for the same unordered pair |
| OverallBalances.SameKeyIff | src/app/api/balances/route.ts:44 | among ids the key tells apart, two keys coincide exactly for the same unordered pair |
| OverallBalances.HyphenFreeKeysDistinct | src/app/api/balances/route.ts:44 | the key tells apart all pairs of ids without '-' |
| OverallBalances.SameLengthKeysDistinct | src/app/api/balances/route.ts:44 | the key tells apart all pairs of ids of one common length, such as UUIDs, whatever they contain |
| OverallBalances.RouteStep | src/app/api/balances/route.ts:43-57 | a payer's own split changes nothing; any other split touches only its pair's key |
| OverallBalances.RouteAmountIsViewerNet | src/app/api/balances/route.ts:40-60 | when the key tells the ids present apart, the total under the viewer-and-other key is the other's shares on the viewer's expenses minus the viewer's shares on the other's expenses |
| OverallBalances.RouteLabelsInvolveViewer | src/app/api/balances/route.ts:45-55 | every entry is either the untouched default or labelled with the viewer on one side |
| OverallBalances.BystanderPairIsZero | src/app/api/balances/route.ts:45-57 | when the key tells the ids present apart, a pair of two other users totals 0, so it is never returned |
| OverallBalances.RouteLabelsFromLastSplit | src/app/api/balances/route.ts:47-55 | an entry's labels are those set by the last split of its key that involves the viewer |
| OverallBalances.Significant | src/app/api/balances/route.ts:62 | exactly the entries whose total exceeds 0.01 in absolute value |
| OverallBalances.RouteBalancesEntries | src/app/api/balances/route.ts:38-62 | the route returns exactly the map's entries whose signed total exceeds 0.01 in absolute value, each labelled with the viewer |
| OverallBalances.RouteGet | src/app/api/balances/route.ts:5-69 | the response is 401 exactly without a session. A `groupId` selects the group branch. Otherwise it returns the overall entries, or 500 when the query fails |
| OverallBalances.HookStep | src/hooks/useBalances.ts:42-62 | a payer's own split changes nothing; any other split touches only its pair's key |
| OverallBalances.StepsKeepSameTotals | src/hooks/useBalances.ts:42-62 | one split keeps the hook's and the route's maps on the same keys with the same totals |
| OverallBalances.HookAgreesWithRoute | src/hooks/useBalances.ts:38-65 | the hook's map has the route's keys, in the route's order, with the route's signed totals |
| OverallBalances.HookKindFromLastSplit | src/hooks/useBalances.ts:50-60 | an entry's `type` is the one set by the last split of its key that involves the viewer, whatever the sign of the total |
| OverallBalances.Absolute | src/hooks/useBalances.ts:69-72 | each entry kept with its amount replaced by the absolute value |
| OverallBalances.HookBalancesEntries | src/hooks/useBalances.ts:67-72 | one entry per map entry whose total exceeds 0.01 in absolute value, shown with the absolute amount |
| OverallBalances.FetchBalances | src/hooks/useBalances.ts:12-80 | signed out gives 'Not authenticated'. A `groupId` selects the group branch. Otherwise a failed query ends in an error, and a successful one gives the overall entries |
| OverallBalances.BySign | src/hooks/useBalances.ts:50-72 | the corrected direction: 'you owe' exactly when the total is negative, with the total's absolute value |
| OverallBalances.ViewerBalances | src/hooks/useBalances.ts:50-72 | one balance per route entry, amount above 0.01, 'you owe' exactly when the entry's total is negative |
| OverallBalances.ViewerBalanceDirection | src/hooks/useBalances.ts:50-72 | when the key tells the ids present apart, the balance with a counterpart says 'you owe' exactly when the viewer owes them on net, for the absolute net |
| OverallBalances.PairEntryLabels | src/app/api/balances/route.ts:47-55 | when the key tells the ids present apart, the viewer-and-other entry is unlabelled or labelled with exactly those two |
| OverallBalances.CounterpartyIsOther | src/hooks/useBalances.ts:55-59 | when the key tells the ids present apart, the counterpart of a labelled viewer-and-other entry of the route is the other user |
| OverallBalances.MixedExampleNet | src/app/api/balances/route.ts:47-55 | in the example, the viewer owes "x" 20 on net |
| OverallBalances.HookMislabelsMixedExample | src/hooks/useBalances.ts:50-72 | the hook reports the example as "owes you 20", both labels naming the viewer |
| OverallBalances.BySignLabelsMixedExample | src/hooks/useBalances.ts:50-72 | by sign, the example is "you owe x 20" |
| BalanceView.SideOf | src/app/balances/page.tsx:51-54 | 'you owe' exactly when the viewer is the row's debtor |
| BalanceView.AmountOf | src/app/balances/page.tsx:55 | a missing amount counts as 0 |
| BalanceView.FirstChar | src/app/balances/page.tsx:57 | the avatar is the name's first character, absent for a missing or empty name |
| BalanceView.UpiIdShape | src/app/balances/page.tsx:58 | the UPI id is the name lower-cased and stripped of white space, then "@upi"; it holds no white space and no upper-case letter |
| BalanceView.PageTransform | src/app/balances/page.tsx:50-60 | a row shows its side, its amount, and the other party's name, avatar and UPI id |
| BalanceView.PageBalances | src/app/balances/page.tsx:50-60 | one shown entry per row, in order |
| BalanceView.UpiLinkParams | src/app/balances/page.tsx:299 | when no value holds '&', the link's query reads back as pa, pn, am, cu=INR, tn with the values put in |
| BalanceView.ParamsOfLink | src/app/balances/page.tsx:299 | a link of five `key=value` fields reads back as those pairs, given no '&' in the values and no '=' in the keys |
| BalanceView.DisplayName | src/app/dashboard/page.tsx:166-167 | a missing or empty name shows as 'User', so it is never empty |
| BalanceView.Initial | src/app/dashboard/page.tsx:173 | one character, never a lower-case ASCII letter: the first one upper-cased |
| BalanceView.DashTransform | src/app/dashboard/page.tsx:161-175 | a row shows its side, its amount, the other party's name or 'User', and that name's initial |
| BalanceView.DashRows | src/app/dashboard/page.tsx:111-124 | the dashboard receives a prefix of the viewer's rows of length min(3, all), so all of them exactly when there are at most three |
| BalanceView.DashBalances | src/app/dashboard/page.tsx:161-175 | one shown entry per row, in order |
| BalanceView.OfSide | src/app/balances/page.tsx:81-82 | exactly the entries of one side |
| BalanceView.Partition | src/app/balances/page.tsx:81-82 | the two sides together are a rearrangement of all the entries |
| BalanceView.PartitionSizes | src/app/balances/page.tsx:81-82 | the two sides' sizes add up to the number of entries |
| BalanceView.PartitionTotals | src/app/balances/page.tsx:84-85 | the two sides' totals add up to the total of all entries |
| BalanceView.NetIsSignedTotal | src/app/balances/page.tsx:84-86 | the net is the sum over the entries, plus when owed to the viewer and minus when owed by them |
| BalanceView.PageSignedTotal | src/app/balances/page.tsx:50-86 | the page's net is the viewer's net read straight off the stored rows |
| BalanceView.DashSignedTotal | src/app/dashboard/page.tsx:258-259 | the dashboard's net is the viewer's net read straight off the stored rows |
| BalanceView.PagesAgreeOnNet | src/app/dashboard/page.tsx:494-498 | each page's net is the viewer's net over the rows it received; the Balances page and the dashboard agree when the viewer has at most three rows |
| BalanceView.LimitedDashboardNet | src/app/dashboard/page.tsx:111-124 | with four rows of 1 owed to the viewer, the Balances page shows a net of 4 and the dashboard 3 |
| BalanceView.NetLabel | src/app/balances/page.tsx:137-141 | three captions, one for each sign of the net |
| BalanceView.SumAmountsIsSumOfPresent | src/app/dashboard/page.tsx:151 | summing with missing amounts as 0 equals summing the amounts present |
| BalanceView.GroupCardOf | src/app/dashboard/page.tsx:149-154 | a card totals the amounts present and counts the expenses (0 and 0 without expenses); members is always 1 |
| ExpenseCreation.EqualShares | src/hooks/useExpenses.ts:59-64 | one split per user, each of amount / number of users, for the new expense |
| ExpenseCreation.EqualSharesTotal | src/hooks/useExpenses.ts:59-64 | with at least one user, the shares add up to the amount |
| ExpenseCreation.CreateExpense | src/hooks/useExpenses.ts:44-83 | the first write is the caller's object spread plus the session user (or none) as payer. It carries `groupId` and `splitWith` under those keys whenever the caller sent them, and never `group_id`. It succeeds exactly when both checked inserts succeed and `splitWith` is present, and then the equal splits and the analytics row follow |
| ExpenseCreation.CreatedSplitsAddUp | src/hooks/useExpenses.ts:59-70 | on success with users listed, the inserted splits add up to the expense's amount |
| ExpenseCreation.PostExpense | src/app/api/auth/expenses/route.ts:5-58 | the response is 401 with no write exactly without a session. Otherwise the expense is stored with its category defaulted, the group under `group_id` and the user as payer. It answers 201 exactly when the checked inserts succeed and `splitWith` is present, and then the splits and the analytics row (category as sent) follow |
| DashboardForms.InitialGroupId | src/app/dashboard/page.tsx:815 | the first group preselected, or nothing |
| DashboardForms.AddExpenseSubmit | src/app/dashboard/page.tsx:821-850 | a blank title, amount or group is rejected with no write. Otherwise one expense is inserted, paid by the user, and the modal closes exactly when that insert succeeds |
| DashboardForms.StoredDescription | src/app/dashboard/page.tsx:979 | a blank description is stored as null, any other trimmed |
| DashboardForms.GroupData | src/app/dashboard/page.tsx:976-982 | the group row carries the trimmed name, the stored description, the chosen emoji and colour, and the creator |
| DashboardForms.CreateGroupSubmit | src/app/dashboard/page.tsx:960-1040 | a blank name or a missing user is rejected with no write; the first write is the group with a non-empty name; the modal closes exactly when the group and its admin are both stored |
| DashboardForms.NoGroupWithoutAdmin | src/app/dashboard/page.tsx:986-1026 | the new group exists afterwards exactly when the modal closed (with the creator as admin), when the insert returned no row, or when the admin insert failed and so did the unchecked delete. In the last two cases the group has no member |
| DashboardForms.AddReminderSubmit | src/app/dashboard/page.tsx:1150-1180 | without a title or date, nothing is written. Otherwise one unread reminder is written, and the modal closes exactly when that insert succeeds |
| RouteGuard.Guard | src/middleware.ts:13-30 | signed out on a protected page redirects to /login; signed in on /login or /register redirects to /dashboard; everything else passes |
| RouteGuard.ProtectedAndAuthDisjoint | src/middleware.ts:14-26 | no path is both protected and an auth page |
| RouteGuard.MatchesByPrefix | src/middleware.ts:14-26 | the tests match by prefix, so "/login…" and "/dashboard…" of any suffix count |
| RouteGuard.Middleware | src/middleware.ts:33-41 | paths outside the matcher pass untouched; matched paths get the guard's decision |
| RouteGuard.MatchedRedirects | src/middleware.ts:14-41 | on matched paths, the redirects happen exactly in the two documented cases |
| PrivacySettings.CheckPassword | src/app/settings/privacy/page.tsx:238-253 | a new password under six UTF-16 code units is rejected first, then a mismatching confirmation; only a matching password of at least six is submitted |
| PrivacySettings.ChangePassword | src/app/settings/privacy/page.tsx:29-40 | exactly one request, setting the new password; success exactly when it returns no error |
| PrivacySettings.SubmitPasswordForm | src/app/settings/privacy/page.tsx:238-253 | a request is made exactly when the new password is long enough and confirmed, and it sets that password |
| PrivacySettings.CurrentPasswordUnchecked | src/app/settings/privacy/page.tsx:29-40 | the current password never changes the outcome or the requests |
| PrivacySettings.DeleteAccount | src/app/settings/privacy/page.tsx:92-146 | unconfirmed, nothing happens. Confirmed, it deletes splits, expenses paid, memberships, profile, then the account, each for this user only. It signs out exactly when the account deletion succeeds |
| ProfileForm.LocalPart | src/app/profile/page.tsx:48 | an email gives a local part; no email gives none |
| ProfileForm.LocalPartIsPrefix | src/app/profile/page.tsx:48 | the local part holds no '@', starts the email, and is followed by '@' or the end |
| ProfileForm.DefaultName | src/app/profile/page.tsx:48 | the sign-up name, else the email's local part, else 'User'; never empty |
| ProfileForm.NewProfile | src/app/profile/page.tsx:45-50 | the new profile carries the user's id, email and default name, with no bio or phone |
| ProfileForm.LoadProfile | src/app/profile/page.tsx:26-77 | a stored profile is shown and nothing is inserted. Without one, the new profile is inserted and the returned row (or the new profile) is shown. The form name is never empty, and bio and phone default to '' |
| ProfileForm.Cancel | src/app/profile/page.tsx:160-166 | the form's name, bio and phone are refilled from the profile, with '' for anything missing, and all blank without a profile |
| ProfileForm.CancelRestoresLoadedForm | src/app/profile/page.tsx:160-166 | cancelling right after loading restores the loaded form exactly when the profile shown has a name |
| GroupsApi.StatsOf | src/app/api/auth/groups/route.ts:33-38 | a group's total is the sum of its expense amounts and its counts are the sizes of its expense and member lists |
| GroupsApi.AllStats | src/app/api/auth/groups/route.ts:33-38 | one stats record per group, in order |
| GroupsApi.ListGroups | src/app/api/auth/groups/route.ts:11-44 | the response is 401 exactly without a session. It lists every group's stats exactly when the query succeeds and every group came with its expenses |
| GroupsApi.AgreesWithDashboard | src/app/api/auth/groups/route.ts:33-38 | the route and the dashboard's card agree on a group's total and expense count |
| GroupsApi.CreateGroupWith | src/app/api/auth/groups/route.ts:46-87 | the response is 401 with no write exactly without a session. The group is stored with the emoji and colour defaulted. It answers 201 exactly when both inserts succeed, with the creator added as admin |
| GroupsApi.Utf8 | src/app/api/auth/groups/route.ts:62 | a code point's UTF-8 encoding is one to four bytes |
| GroupsApi.MisencodedDefault | src/app/api/auth/groups/route.ts:62 | the default emoji as written is the money bag's four UTF-8 bytes read as Windows-1252, and it is not among the emojis the form offers |
| GroupsApi.DefaultEmojiMatchesDashboard | src/app/api/auth/groups/route.ts:62 | with the money bag as default, a group created without an emoji gets the form's first emoji, one code point |
| Strings.Utf16Length | src/app/settings/privacy/page.tsx:242 | the length is at least the number of characters, and equal to it when every character lies below U+10000 |
| Strings.Split | src/lib/supabaseClient.ts:351 | the fields hold no separator and join back to the string |
| Strings.SplitJoin | src/lib/supabaseClient.ts:351 | joining separator-free fields and splitting again gives the fields back |
| Strings.TrimEmptyIff | src/app/dashboard/page.tsx:968 | trimming gives '' exactly for an all-white-space string |
| Strings.LexTrichotomy | src/app/api/balances/route.ts:44 | exactly one of a < b, a = b, b < a holds |
| Strings.LexTransitive | src/app/api/balances/route.ts:44 | the order is transitive, so the sort order is a strict total order |

## Left out

- Floating point: amounts are exact reals, so IEEE rounding is not modelled, and neither is `toFixed` nor `parseFloat` of text. `parseFloat` becomes a given real.
- The database and the network: query results are parameters, writes are returned lists or new tables, and the failure of each request is a fault parameter (except the unchecked table deletions of account deletion, whose failure changes nothing the model returns).
- The error messages of database failures are not modelled beyond "failed".
- The `.or(...)` and join filters are not modelled: the rows a query returns are taken as given.
- Row-level security and the SQL function `calculate_group_balances` behind the group branch of the balances route and hook are not modelled. A failure of that RPC is not modelled either.
- React state, loading flags, routing after success, alerts, console logging, SWR caching, dates and timestamps, and the export and notification features are not modelled.
- Concurrency between requests is not modelled.
- JavaScript object property order for integer-like keys is not modelled; such keys would be listed first. Category keys are treated as insertion-ordered.
- `toLowerCase` and `toUpperCase` are modelled for ASCII letters only.
- Strings are sequences of code points, so `[0]` of a name that starts with an astral character is the whole character, not half a surrogate pair.
- `Array.prototype.sort` with no comparator compares UTF-16 code units. It is modelled as lexicographic order on code points, which differs only between astral characters and U+E000–U+FFFF.
- OverallBalances.RouteAmountIsViewerNet: proved only when the sorted-and-joined key tells apart the pairs of ids present (`PairKeysDistinct`). That holds for ids without '-' and for ids of one common length, such as UUIDs, but not for arbitrary ids.
- OverallBalances.BystanderPairIsZero: likewise proved only when the key tells the ids present apart. With "x-y" paying "v", the pair ("v-x", "y") shares that key.
- OverallBalances.ViewerBalanceDirection: likewise proved only when the key tells the ids present apart.
- OverallBalances.PairEntryLabels: likewise proved only when the key tells the ids present apart.
- OverallBalances.CounterpartyIsOther: likewise proved only when the key tells the ids present apart.
- GroupLedger.EncodeKeyInjective: stated for ids without '-'. GroupLedger.SameLengthEncodeKeyInjective covers ids of one common length such as UUIDs, so for UUIDs the string-keyed map is right and only the `split('-')` of the keys goes wrong (see Findings). For ids of different lengths that hold '-', two pairs can share a key.
- GroupLedger.KeyingsAgree and GroupLedger.UpdateBalancesKeyingsAgree: proved only for ids without '-'. UUIDs contain '-', and for them the application's rows differ (see Findings).
- BalanceView.DashRows: `.limit(3)` without an order leaves the choice of rows to the database. The model takes the first three in the order the Balances page receives them.
- BalanceView.PagesAgreeOnNet: the two pages agree only for viewers with at most three rows. BalanceView.LimitedDashboardNet shows them differ with four.
- ExpenseCreation.CreateExpense: the row written is the caller's object as is. How the database treats the keys `groupId` and `splitWith`, which are not columns of `expenses`, is not modelled. A rejected insert is the `ExpenseInsertFails` fault.
- DashboardForms.NoGroupWithoutAdmin: assumes the new group id has no memberships beforehand.
- BalanceView.UpiLinkParams: proved only when no value contains '&'; the link does not URL-encode its values.
- OverallBalances.FetchBalances: a failed overall query is promised to end in an error, but not which message, because that message comes from the database. The group branch's database function, and its failure, are not modelled.
- Netting.ApplySplit, GroupLedger.Step and GroupLedger.Net carry no contract of their own; what they compute is stated by Netting.ApplySplitNets, GroupLedger.StepNets, GroupLedger.NetValid, GroupLedger.NetKeys and the fold lemmas.
- GroupLedger.EncodeKey and GroupLedger.DecodeKey carry no contract of their own; they are stated by GroupLedger.DecodeEncodeIff, GroupLedger.EncodeKeyInjective and GroupLedger.DecodeTwoHyphens.
- GroupLedger.KeyedRows and GroupLedger.Recompute carry no contract of their own; they are stated by GroupLedger.RecomputedRowsShape, GroupLedger.RecomputedRowIff, GroupLedger.KeyingsAgree, GroupLedger.HyphenatedIdMisread and GroupLedger.HyphenatedIdKept.
- OverallBalances.RouteNet and OverallBalances.HookNet: their contracts say only that the map is well formed. What they hold is stated by OverallBalances.RouteAmountIsViewerNet, OverallBalances.BystanderPairIsZero, OverallBalances.RouteLabelsInvolveViewer, OverallBalances.PairEntryLabels, OverallBalances.HookAgreesWithRoute and OverallBalances.HookKindFromLastSplit.
- SpendingStats.Tally: its contract says only that the map is well formed; its totals are stated by SpendingStats.TallyTotals, SpendingStats.TallyConserves and SpendingStats.CategoriesFacts.
- BalanceView.UpiId, BalanceView.UpiLink and BalanceView.NetBalance carry no contract of their own; they are stated by BalanceView.UpiIdShape, BalanceView.UpiLinkParams, BalanceView.NetIsSignedTotal and BalanceView.PagesAgreeOnNet.
- BalanceView.Counterpart, BalanceView.NameOf and BalanceView.TemplateText carry no contract of their own; the counterpart's name and the `${}` text they give are stated by BalanceView.PageTransform and BalanceView.UpiLinkParams.
- BalanceView.DashName carries no contract of its own; the label it gives is stated by BalanceView.DashTransform.
- OverallBalances.RouteAt and OverallBalances.HookAt carry no contract of their own; the entries they read are stated by OverallBalances.RouteStep, OverallBalances.HookStep, OverallBalances.RouteAmountIsViewerNet and OverallBalances.HookAgreesWithRoute.
- RouteGuard.Protected and RouteGuard.AuthPage carry no contract of their own; the paths they classify are stated by RouteGuard.Guard, RouteGuard.MatchesByPrefix and RouteGuard.ProtectedAndAuthDisjoint.
- SpendingStats.Keyed and SpendingStats.ChartItems: their contracts only spell out the one-to-one labelling of the expenses. What the labels yield is stated by SpendingStats.GroupAnalytics, SpendingStats.UserSpendingStats, SpendingStats.ChartData and SpendingStats.NoEmptyChartCategory.
- GroupsApi.CreateGroupAsWritten and GroupsApi.CreateGroup carry no contract of their own. Both are GroupsApi.CreateGroupWith with a fixed default emoji, and GroupsApi.MisencodedDefault and GroupsApi.DefaultEmojiMatchesDashboard state what each stores.
- ExpenseCreation.ExpenseKeys carries no contract of its own; the keys each route sends are stated by ExpenseCreation.CreateExpense and ExpenseCreation.PostExpense.
- OverallBalances.RouteBalances and OverallBalances.HookBalances: their contracts are the lemmas OverallBalances.RouteBalancesEntries and OverallBalances.HookBalancesEntries.
- The profile's `created_at` timestamp and the reminder's date parsing are left out (clock and `Date`).
- The remaining files outside these flows are not part of this model:
  - login, register and logout routes;
  - group detail page;
  - account and notification settings;
  - AuthContext;
  - the other supabaseClient helpers (groups, members, profiles, reminders).

## Findings

| source | as written | input that shows it | evidently intended | confidence | as-written member | corrected member |
|---|---|---|---|---|---|---|
| src/lib/supabaseClient.ts:325-351 | the balance map is keyed by `${debtor}-${creditor}` and the key is split on '-' to recover the ids | debtor id "u-1" owes creditor "v" 10: the row is written from "u" to "1" | the row names debtor "u-1" and creditor "v" (ids are UUIDs, which contain '-') | not executed | GroupLedger.HyphenatedIdMisread | GroupLedger.HyphenatedIdKept, GroupLedger.RecomputedRowIff |
| src/hooks/useBalances.ts:50-60 | an entry's `type` is set by the last split involving the viewer, and the amount is then made absolute | viewer "v": "x" pays 30 with v's share 30, then v pays 10 with x's share 10; the net says v owes x 20 | 'you-owe' exactly when the signed total is negative | not executed | OverallBalances.HookMislabelsMixedExample | OverallBalances.ViewerBalanceDirection, OverallBalances.BySignLabelsMixedExample |
| src/hooks/useBalances.ts:57 | on an "owes you" split, `fromUser` is set to the payer, who is the viewer | the same example: both `fromUser` and `toUser` name the viewer | `fromUser` is the split's member, the debtor | not executed | OverallBalances.HookMislabelsMixedExample | OverallBalances.CounterpartyIsOther |
| src/app/dashboard/page.tsx:111-124 | the balances query is limited to three rows, and the "Net Balance" card sums those | four balance rows of 1 owed to the viewer: the card shows 3, the Balances page 4 | the card shows the viewer's net over all their rows, as the Balances page does | not executed; the limit may be meant only for the list beside the card | BalanceView.LimitedDashboardNet | BalanceView.DashSignedTotal |
| src/app/api/auth/groups/route.ts:62 | the default emoji literal is 'ðŸ’°' | a group created through the API without an emoji | the money bag 💰 (U+1F4B0), the dashboard form's default | not executed | GroupsApi.MisencodedDefault | GroupsApi.DefaultEmojiMatchesDashboard |
