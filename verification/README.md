# A verified model of kingshard's sharding core

kingshard is a MySQL proxy that splits a logical table into sub-tables spread over backend nodes. This
project models, in Dafny, how the proxy routes, rewrites, dispatches and merges statements, and four
smaller parts around that: the wire codecs, the connection pool, the slave balancer, and the per-client
transaction state. It proves that the sharded system behaves like the single table it stands for, or
states exactly when it does not. `dafny verify dfyconfig.toml` checks the whole project.

## How the modules fit together

| module | part of the proxy |
|---|---|
| `Prelude`, `Text`, `Parts`, `Bytes` | results and failures, 64-bit wrap-around, numerals, byte-wise string order, date texts, append-to-map, bytes |
| `Calendar` | what DATE and DATETIME columns hold: days of the calendar and times of day, as texts and as numbers in the same order |
| `SortedLists` | the sub-table lists of the planner and their merge loops |
| `Shards`, `Rules` | where a key is placed; how a configuration becomes a partition of sub-tables over nodes |
| `Where`, `Routing`, `Planning`, `Planner` | WHERE trees with three-valued truth; the routed list as a predicate; when routing is complete, when planning succeeds, and that the list is no longer than it need be; the planner's methods, which compute that list and change the plan and the tree in place |
| `Splitting`, `Rewriter` | the IN list cut per sub-table; one statement per sub-table, the tree being changed and put back |
| `Limits`, `Sorting` | LIMIT and ORDER BY across shards |
| `GroupKeys`, `Aggregates`, `GroupBy` | GROUP BY across shards: the map keys of groups, the aggregate functions, the merge |
| `Select`, `Inserts`, `Dispatch`, `Pipeline`, `Grouped` | the claims about whole statements: when the shards answer, and that they then answer as the logical table would, under any interleaving of the goroutines |
| `PacketIO`, `LengthEncoding`, `StmtExecute`, `SqlLiteral` | packets, length-encoded values, COM_STMT_EXECUTE, string literals |
| `Pool`, `Balancer`, `Transactions` | the connection pool, weighted round robin with slave membership, transactions of a client |

Code that updates objects is modelled by classes and methods with loops, each proved against a function or
predicate on values; the long-range claims are lemmas about those. Nodes of a parsed statement that the
proxy writes to (right operands of comparisons, column qualifiers) live in fields of `Planner.SelectStmt`,
addressed by the node's number; the rest of the tree is a datatype. Concurrent code (the pool, the result
goroutines) is a transition system whose runs are arbitrary schedules. A row is its sharding key and
its other cells; every condition that is not a comparison of the key with literals is an arbitrary
function of the row (`Where.Meaning`). Library sorting is any sorted permutation; the checksum of
non-numeric hash keys and the calendar arithmetic of day ranges are parameters.

## Where the code does not keep the promise

Each is proved with its exact condition, a counterexample, or both.

- A planned SELECT is answered, rather than refused with an error, exactly when `Select.Answerable` holds
  (`Select.ShardedSelect`). It is refused when an equality or IN literal of a date rule belongs to a sub-table
  nobody configured, which the statement is sent to all the same (`Select.UnconfiguredLiteral`); when nothing
  is routed to, as for two equalities placed in different sub-tables (`Select.ContradictionRefused`), although
  the right answer is no rows; and when a column keeps the qualifier of the unsharded table, as in a negated
  BETWEEN (`Select.NegatedRangeRefused`).
- A key test is routed to every sub-table that may satisfy it exactly when `Routing.TestOk` holds
  (`Routing.TestExact`): range `NOT BETWEEN` with reversed bounds may skip tables between the two ends; date
  comparisons whose literal's sub-table is not configured return nothing; date `NOT IN` drops a whole table
  unless every value it may hold is listed, and date `NOT BETWEEN` drops the tables of both bounds unless the
  lower one is the first value of its table and nothing in the table of the upper one comes after it, as when
  a whole month is excluded (`Routing.WholeTables`). Values are days of the calendar, with a time of day in a
  DATETIME column, and so are the witnesses.
- In range rules less-than the first key of the key space, and NOT BETWEEN with that key as its lower end, are
  refused with an error (`Planning.RangePlans`, `Planning.NotBetweenPlans`).
- In date rules a `NOT IN` overwrites the value groups of an earlier `IN`. Putting the group of one list in
  the place of another decides alike for every key stored in the sub-table exactly when the two lists have
  the same literals there (`Splitting.ExchangeExact`); otherwise the rewritten statement may select rows the
  original does not (`Splitting.NotInOverwritesGroups`). The condition is asked for only where a statement is
  sent (`Select.InBesideNotIn`).
- A numeric and a textual spelling of one hash key agree exactly for non-negative numbers
  (`Shards.HashSpellings`).
- Statements reach the node of their sub-table exactly when the router's and the rule's node lists name the
  routed nodes alike (`Dispatch.DispatchIff`, `Dispatch.MisroutedStatement`).
- An inserted row stays visible to queries exactly when its key belongs to a configured sub-table; a date
  outside every range is sent to an unconfigured sub-table on the first node (`Inserts.InsertKeepsPlaced`,
  `Inserts.UnconfiguredDate`).
- A payload whose length is a multiple of the largest packet is refused by the reader
  (`PacketIO.PacketRoundTrip`).
- A group of two or more texts shares its map key with another exactly when some text contains the separator
  (`GroupKeys.TextKeysShared`), and a NULL always with the text it prints as (`GroupKeys.NullCollides`). A sum
  without values that comes in several parts becomes 0.0 instead of NULL (`Aggregates.CombineIsMerge`). The
  greatest or least of byte strings is the first that arrives (`Aggregates.PassedOver`).
- A limit whose offset and count overflow 64 bits panics instead of returning the remaining rows
  (`Limits.LimitSelectResult`).
- A client of the pool has no step exactly when `Pool.BlockedWhen` says, which includes waiting on the empty
  cache channel while idle slots are free; that state is reached from a pool just opened
  (`Pool.CacheWaitIgnoresIdle`).
- `set autocommit = 1` gives a connection back with its transaction still open exactly when the transaction was
  started by begin with autocommit on (`Transactions.GivenBackOpen`, `Transactions.AutocommitLeavesOpen`); the
  pool rolls it back when the connection is next taken.
- A slave that cannot be opened leaves its weight behind, and weights that are not positive are taken as they
  are (`Balancer.Node.AddSlave`, `Balancer.Node.ParseSlave`).
- A negative location makes a rule list a sub-table twice (`Rules.LocatedAscending`,
  `Rules.NegativeLocationOverlaps`).

## Model

| member | source | states |
|---|---|---|
| Pipeline.ShardedSelectRuns | proxy/server/conn_query.go:230-304 | End to end: under every interleaving of the per-node goroutines, once all have finished every slot holds the reply for a sub-table of its own; all replies are rows if and only if the statement is answerable, and then they are, as a multiset, exactly the rows of the logical table that satisfy the original WHERE tree |
| Pipeline.SlotsHold | proxy/server/conn_query.go:254-287 | Slot i of the result slice holds the answer to the statement of the i-th sub-table in slot order, whatever the schedule |
| Pipeline.PlanSelect | proxy/router/router.go:306-352 | Planning and finding connections establish the premises of the end-to-end claim, on node lists whose names agree |
| Pipeline.ShardedInsertRuns | proxy/router/router.go:740-778 | End to end: under every interleaving, every INSERT statement goes to an existing table if and only if every row is placed in a configured sub-table, and then every sub-table ends up as if the rows had been inserted one at a time where their keys belong |
| Select.ShardedSelect | proxy/router/router.go:709-738 | A planned SELECT is answered if and only if it is answerable (something routed to, equality and IN literals configured, no leftover qualifier), and then with, as a multiset, the rows of the logical table satisfying the original WHERE, for hash, range and date rules |
| Select.HomeAgrees | proxy/router/planbuilder.go:362-413 | A stored row is gathered exactly when the original tree selects it: its sub-table is routed and the rewritten tree is true of it |
| Select.GatheredIsSelected | proxy/server/conn_select.go:388-414 | The rows gathered from the routed sub-tables, each with its own rewritten WHERE, are as a multiset the selected rows of the logical table |
| Select.TestNames | proxy/router/planbuilder.go:203-248 | A key test reaches an unconfigured sub-table if and only if one of its equality or IN literals is placed there |
| Select.TreeNames | proxy/router/planbuilder.go:362-413 | The same for whole WHERE trees |
| Select.NothingRefused | proxy/router/router.go:709-738 | No routed statement is refused by its backend if and only if the SELECT is answerable |
| Select.InBesideNotIn | proxy/router/planbuilder.go:249-254 | In a day rule, IN one day beside NOT IN another, both configured, meets all premises of the end-to-end claim, goes to the first day's sub-table alone and is sent as it was written |
| Select.UnconfiguredLiteral | proxy/router/planbuilder.go:207-218 | Equality with an unconfigured day: all premises of routing hold, and the client gets an error |
| Select.ContradictionRefused | proxy/router/router.go:338-342 | Two equalities placed in different sub-tables route to nothing, and the client gets an error |
| Select.NegatedRangeRefused | proxy/router/router.go:689-707 | A qualified column under a negated BETWEEN keeps its qualifier |
| Select.ShardedSelectOrdered | proxy/server/conn_select.go:416-473 | With ORDER BY and LIMIT: answered if and only if answerable, and then sorting the pushed-down prefixes and cutting [offset, offset + count) is that same cut of some sort of all selected rows of the logical table |
| Routing.TestExact | proxy/router/planbuilder.go:80-280 | A key test reaches every configured sub-table holding a key that satisfies it if and only if its stated condition holds, for every kind of rule, column and test |
| Routing.TestSound | proxy/router/planbuilder.go:80-280 | Under the condition, the sub-table of every key satisfying the test is routed |
| Routing.RoutingSound | proxy/router/planbuilder.go:362-413 | By induction on the tree: a row that makes the WHERE true lies in a routed sub-table |
| Routing.UnreadGoesEverywhere | proxy/router/planbuilder.go:96-104 | Tests whose literals are not looked at go to every configured sub-table, whatever the literals are |
| Where.LeafHoldsIsSatisfies | proxy/router/planbuilder.go:122-160 | A comparison written with the key on the right says what the turned-round comparison says that the planner's branches for it route by |
| Routing.AdjustBound | proxy/router/planbuilder.go:500-515 | A key below a literal lies at or before the literal's adjusted index, the range starting at the literal being left out |
| Routing.PlaceMonotone | proxy/router/shard.go:144-282 | In range and date rules a larger key is never placed in an earlier sub-table |
| Routing.SpelledIndex | proxy/router/planbuilder.go:495-498 | A literal is routed to the sub-table in which the key it denotes is stored |
| Routing.RangeNotBetweenGap | proxy/router/planbuilder.go:183-193 | For reversed bounds that leave a gap, a concrete key in an unrouted range satisfies NOT BETWEEN |
| Routing.CompareGap | proxy/router/planbuilder.go:219-242 | For a date literal whose sub-table is not configured, a concrete date satisfies the comparison in an unrouted sub-table |
| Routing.MemberGap | proxy/router/planbuilder.go:249-254 | Date NOT IN: a date the column may hold, in a dropped sub-table, is not in the list |
| Routing.BetweenGap | proxy/router/planbuilder.go:256-270 | Date BETWEEN with an unconfigured end: a date the column may hold, inside the bounds, is not routed |
| Routing.NotBetweenGap | proxy/router/planbuilder.go:256-274 | Date NOT BETWEEN: the first value of the table of the lower bound, or the last one of that of the upper, is dropped although it lies outside the bounds |
| Routing.WholeTables | proxy/router/planbuilder.go:256-274 | NOT BETWEEN the first value of one sub-table and the last one of a later one meets the condition, for both kinds of date column |
| Routing.LiteralIndex | proxy/router/planbuilder.go:495-498 | A date or date-time is routed by its day to a sub-table the calendar has, also where the column cannot hold an equal value |
| Planning.KeyComparison | proxy/router/planbuilder.go:386-404 | Each of the six comparisons of the key with a value is a key test, turned round if the key is on the right |
| Planning.KeyLists | proxy/router/planbuilder.go:386-412 | So are IN, NOT IN, BETWEEN and NOT BETWEEN |
| Planning.TestReads | proxy/router/planbuilder.go:122-160 | What a comparison of an integer key says, in numbers, with the key on either side |
| Planning.TextReads | proxy/router/planbuilder.go:122-160 | The same of a text key, in byte order |
| Planning.RangeReads | proxy/router/planbuilder.go:162-193 | The same of BETWEEN and its negation |
| Planning.MemberReads | proxy/router/planbuilder.go:161-163 | The same of IN and its negation |
| Planning.LiteralReads | proxy/router/planbuilder.go:495-498 | A number is routed as the key it spells, a text as itself |
| Planning.HashPlans | proxy/router/planbuilder.go:80-108 | In hash rules less, greater, BETWEEN and NOT IN always plan, equality and IN if and only if their literals can be read |
| Planning.RangePlans | proxy/router/planbuilder.go:111-200 | In range rules a test plans if and only if its literals lie in the key space, and for less-than are not its first key |
| Planning.NotBetweenPlans | proxy/router/planbuilder.go:183-193 | NOT BETWEEN plans if and only if both bounds lie in the key space and the lower end is not its first key |
| Planning.DatePlans | proxy/router/planbuilder.go:203-280 | In date rules a test plans if and only if every literal has numerals where its date belongs |
| Planning.TreePlans | proxy/router/planbuilder.go:362-413 | A tree plans if and only if all key tests outside negations do |
| Planning.PlaceableTree | proxy/router/planbuilder.go:362-413 | Every tree of tests with readable literals, in the key space or dates, plans |
| Planning.EqualityRoutes | proxy/router/planbuilder.go:80-108 | Equality is routed to the one sub-table its key is stored in, IN to exactly those of its keys |
| Planning.RangeTight | proxy/router/planbuilder.go:117-160 | In range rules a comparison is routed to exactly the sub-tables with a key that satisfies it, greater-than also to that of the literal |
| Planning.BetweenTight | proxy/router/planbuilder.go:162-193 | BETWEEN is routed to exactly the sub-tables with a key between the bounds in either order, NOT BETWEEN to those with a key below the lower bound or from the upper one on |
| Planning.DateTight | proxy/router/planbuilder.go:203-280 | In date rules a test is routed only to sub-tables of its literals or with a date that satisfies it |
| Planner.Plan.GetTableIndexByBoolExpr | proxy/router/planbuilder.go:362-413 | Succeeds exactly for trees that plan, among them all trees of placeable tests; the list is strictly ascending and has exactly the routed sub-tables; records the IN to split and the groups kept; drops the table qualifier of exactly the visited columns |
| Planner.Plan.GetTableIndexByLeaf | proxy/router/planbuilder.go:386-412 | The same for one comparison or range condition |
| Planner.Plan.GetTableIndexs | proxy/router/planbuilder.go:65-77 | The list for one key test by kind of rule |
| Planner.Plan.GetHashShardTableIndex | proxy/router/planbuilder.go:80-108 | The list of a hash rule is the set the routing predicate describes, ascending; errors exactly where a literal has no index |
| Planner.Plan.GetRangeShardTableIndex | proxy/router/planbuilder.go:111-200 | The same for range rules, with the adjusted start and both halves of NOT BETWEEN |
| Planner.Plan.GetDateShardTableIndex | proxy/router/planbuilder.go:203-280 | The same for date rules, with the complements of NOT IN and NOT BETWEEN |
| Planner.Plan.GetRangeComparison | proxy/router/planbuilder.go:117-160 | The branches for a key on the left and on the right of a comparison give the list of the turned-round test, in range rules |
| Planner.Plan.GetDateComparison | proxy/router/planbuilder.go:207-246 | The same in date rules |
| Planner.Plan.GetTableIndexsByTuple | proxy/router/planbuilder.go:416-446 | The ascending list of the sub-tables of an IN list, and the list cut into one group of values per sub-table, order kept |
| Planner.GroupValues | proxy/router/planbuilder.go:416-434 | The grouping loop: every value in the group of its own sub-table and no other, or an error if some value has no sub-table |
| Planner.Plan.GetValueType | proxy/router/planbuilder.go:339-360 | Classifies an operand and empties the qualifier of a column qualified by the sharded table |
| SortedLists.MakeList | proxy/router/planbuilder.go:541-547 | Ascending, exactly the numbers of [start, end) |
| SortedLists.MakeLeList | proxy/router/planbuilder.go:552-559 | The configured indexes up to a value; nothing when the value is not configured |
| SortedLists.MakeGeList | proxy/router/planbuilder.go:564-571 | The configured indexes from a value on; nothing when the value is not configured |
| SortedLists.MakeBetweenList | proxy/router/planbuilder.go:600-620 | The configured indexes between two configured ends in either order, else nothing |
| SortedLists.InterList | proxy/router/planbuilder.go:623-644 | On ascending lists: ascending, exactly the intersection |
| SortedLists.UnionList | proxy/router/planbuilder.go:647-679 | On ascending lists: ascending, exactly the union |
| SortedLists.DifferentList | proxy/router/planbuilder.go:682-710 | On ascending lists: ascending, exactly the difference |
| SortedLists.CleanList | proxy/router/planbuilder.go:712-725 | The same elements, each once |
| SortedLists.SortedKeys | proxy/router/planbuilder.go:436-446 | The keys of the group map in ascending order |
| SortedLists.AscendingListIsUnique | proxy/router/planbuilder.go:623-710 | Two ascending lists with the same elements are the same list, so the set contracts fix the result |
| Shards.FindInRanges | proxy/router/shard.go:144-152 | The scan finds the first range holding the key, or reports the key out of range |
| Shards.ParseNumSharding | proxy/router/numkey.go:50-64 | One range of TableRowLimit keys per sub-table, with 64-bit wrap-around |
| Shards.RangeTableContiguous | proxy/router/numkey.go:50-64 | A key space that fits int64 has non-empty ranges in order, each ending where the next starts |
| Shards.RangeScanIsQuotient | proxy/router/shard.go:144-152 | Inside the space the scan is key / TableRowLimit, outside an error, with the one exception the sentinel end makes |
| Shards.RangeMonotone | proxy/router/shard.go:144-152 | Larger keys never lie in earlier ranges |
| Shards.HashSpellings | proxy/router/shard.go:75-93 | A number and its decimal text hash to the same sub-table for every checksum if and only if the number is not negative |
| Shards.HashPlaces | proxy/router/shard.go:75-106 | Numbers and unsigned numerals are placed at their remainder, negative numbers at that of their unsigned reading, other texts at that of their checksum |
| Shards.FindDateIndex | proxy/router/shard.go:167-282 | A date text is placed in the sub-table numbered by its year, month or day |
| Calendar.StampOrder | proxy/router/shard.go:167-282 | Dates and date-times, a bare date counting as its midnight, are ordered as text exactly as their numbers YYYYMMDDhhmmss are |
| Calendar.StampInTable | proxy/router/shard.go:167-282 | A value is placed in sub-table t if and only if its number lies between the first and the last value of t |
| Calendar.EndsValid | proxy/router/shard.go:167-282 | Every sub-table of a calendar year, month or day has a first and a last value, month lengths and leap years included |
| Calendar.MomentTextIs | proxy/router/shard.go:167-282 | Every such number is that of a text the column may hold |
| Text.DateIndexMonotone | proxy/router/shard.go:167-282 | Dates in chronological order have ascending sub-table numbers |
| Text.DayIndexInjective | proxy/router/shard.go:240-282 | A day sub-table holds one bare date only |
| Rules.ParseRule | proxy/router/router.go:164-247 | A hash rule is accepted if and only if there is a location per node, a date rule if and only if there is a range per node and their blocks follow one another; an accepted rule has strictly ascending sub-tables, equal to the domain of the table-to-node map, with node indexes in range, if locations are not negative; hash and range blocks belong to the node of their location, date blocks to the node of their range; the placement function then agrees with it |
| Rules.ParseShard | proxy/router/router.go:249-275 | The shard function of each kind of rule, with as many ranges as sub-tables |
| Rules.LocateTables | proxy/router/router.go:174-185 | Each node is given the next block of consecutive sub-tables |
| Rules.LocatedAscending | proxy/router/router.go:174-185 | The list is strictly ascending if and only if no negative location pulls a later block over an earlier one |
| Rules.NegativeLocationOverlaps | proxy/router/router.go:174-185 | Locations [2, -1, 1] list sub-table 1 twice |
| Rules.LocateDates | proxy/router/router.go:186-239 | Accepted if and only if every range can be read and each block begins behind those before it; the sub-tables are then the blocks one after another, ascending, and each belongs to the node of its range |
| Rules.ListMonths | proxy/router/numkey.go:166-180 | The loop, from any year and month |
| Rules.LoopIsMonths | proxy/router/numkey.go:166-180 | From a calendar month the loop lists exactly the calendar months up to the last one, across year ends |
| Rules.LoopAscends | proxy/router/numkey.go:166-180 | Whatever the month, the list is strictly ascending |
| Rules.ParseMonthRange | proxy/router/numkey.go:123-181 | A range between two months in either order lists exactly the months between them |
| Rules.ParseYearRange | proxy/router/numkey.go:186-222 | A range between two years in either order lists exactly the years between them |
| Rules.YearMonthOrder | proxy/router/numkey.go:144-147 | The text order used to exchange the ends is the calendar order |
| Splitting.SameNodeUnlessDate | proxy/router/planbuilder.go:394-446 | In hash and range rules the recorded IN and the recorded groups always belong to the same comparison |
| Splitting.GroupDecides | proxy/router/planbuilder.go:416-446 | A key stored in sub-table t is in the list exactly when it is in the group of t |
| Splitting.InListCut | proxy/router/planbuilder.go:51-59 | A single IN is sent to each routed sub-table with exactly its values that are placed there |
| Splitting.LastInRecorded | proxy/router/planbuilder.go:394-404 | Of several IN lists the last one visited is exchanged, and none under a negation |
| Splitting.ExchangeExact | proxy/router/planbuilder.go:51-59 | Putting the group of one list in the place of another decides alike for every key stored in the sub-table if and only if the two lists have the same literals there, those no value of the column equals aside |
| Splitting.SameNodeOk | proxy/router/planbuilder.go:394-446 | A recorded IN and groups of the same comparison always meet that condition |
| Splitting.ReplacedEval | proxy/router/planbuilder.go:51-59 | Exchanging the list for its group keeps the truth value in any boolean context |
| Splitting.WherePreserved | proxy/router/router.go:644-666 | If nothing is exchanged or the lists agree on the sub-table, the rewritten WHERE has the original's truth value for every row stored there |
| Splitting.NotInOverwritesGroups | proxy/router/planbuilder.go:249-254 | In a day rule, for any two days, a tree with IN and NOT IN is rewritten so that a row not selected becomes selected |
| Rewriter.RewriteWhereIn | proxy/router/planbuilder.go:51-59 | The tree then reads as the one for that sub-table, and putting the returned operand back restores it |
| Rewriter.ResetQualifier | proxy/router/router.go:678-687 | One qualifier exchanged for the sub-table's name, the old one saved |
| Rewriter.RewriteWhereQualifier | proxy/router/router.go:689-707 | Exactly the qualifiers of the operands it comes to are exchanged, and the saved map has their old values |
| Rewriter.ResetOrder | proxy/router/router.go:650-653 | The same for the ORDER BY columns |
| Rewriter.RestoreQualifiers | proxy/router/router.go:671-674 | Putting the saved qualifiers back in any order restores all qualifiers |
| Rewriter.RewriteSelectSql | proxy/router/router.go:533-676 | Prints the statement for one sub-table and leaves IN operand and qualifiers as they were at entry |
| Rewriter.LeftoverQualifiers | proxy/router/router.go:644-707 | A printed qualifier still names the unsharded table if and only if it did when parsed and neither planning nor rewriting came to it |
| Rewriter.SubNameReads | proxy/router/router.go:678-687 | A sub-table is named table_ and its number in four digits or more; different numbers give different names |
| Rewriter.QualifiersRewritten | proxy/router/router.go:678-707 | A qualifier that named the table names the sub-table of the statement if and only if rewriting comes to it |
| Rewriter.ColumnsMet | proxy/router/router.go:689-707 | The columns rewriting comes to, and those planning does |
| Rewriter.NodeOfReads | proxy/router/router.go:725-731 | A configured sub-table is on its rule's node, any other on the first |
| Rewriter.GenerateSelectSql | proxy/router/router.go:709-738 | One statement per routed sub-table, in routing order, under the name the router's list has for its node; the parsed statement is unchanged |
| Rewriter.TindexsToNindexs | proxy/router/planbuilder.go:727-736 | Exactly the nodes of the routed sub-tables, each once |
| Rewriter.BuildSelectPlan | proxy/router/router.go:306-352 | Succeeds exactly when the tree plans, something is routed to and every routed sub-table has a node in the router's list; then the routed list, its nodes each once, and one statement per sub-table |
| Limits.RewrittenLimit | sqlparser/ast.go:841-874 | The pushed-down limit asks for the first offset + count rows |
| Limits.LimitSelectResult | proxy/server/conn_select.go:431-473 | Rows [offset, offset + count) of those that exist exactly when the offset is not negative and either lies past the rows or gives no 64-bit overflow with the count; errors otherwise |
| Limits.LimitReads | proxy/server/conn_select.go:431-473 | LIMIT written with numerals keeps the rows from the offset on, as many as the count; without an offset from the first |
| Limits.LimitNegative | proxy/server/conn_select.go:431-473 | A negative count is an error, a negative offset a panic |
| Limits.SliceIs | proxy/server/conn_select.go:459-472 | Length and elements of what is kept |
| Sorting.Less | mysql/resultset_sort.go:68-89 | A row is less exactly when the first key whose cells differ puts it in front, in the direction of that key: NULL first, integers by value, texts in byte order |
| Sorting.SortedCells | mysql/resultset_sort.go:68-139 | A list is sorted if and only if no key, among rows that no earlier key tells apart, has a cell in front of one that precedes it |
| Sorting.SortedColumn | mysql/resultset_sort.go:68-139 | In a sort by one column NULLs come first, integers do not decrease and texts are in byte order; descending the reverse |
| Sorting.SortedSecond | mysql/resultset_sort.go:68-89 | A second column orders the rows that have the same cell in the first |
| Sorting.SortKeys | mysql/resultset_sort.go:48-64 | One key per ORDER BY name, with the name's column and direction, or none if a name is not in the result |
| Sorting.CmpValueOrder | mysql/resultset_sort.go:92-139 | Comparing two cells is a total order with NULL first |
| Sorting.Cmp3Order | mysql/resultset_sort.go:68-139 | Comparing rows by sort keys is a total preorder |
| Sorting.SortsAgree | mysql/resultset_sort.go:147-157 | Any two sorts of the same rows have the same sort keys at every position |
| Sorting.TopK | proxy/server/conn_select.go:416-473 | If each shard sends the first k rows of a sort of its rows, the first k of any sort of what arrives are the first k of some sort of all rows |
| Sorting.TopKSlice | proxy/server/conn_select.go:431-473 | ... so the slice [offset, offset + count) is that of the whole |
| Sorting.ConcatResults | proxy/server/conn_select.go:388-414 | All answers one after another |
| Sorting.MergeSelectResult | proxy/server/conn_select.go:138-160 | What the limit leaves of a sort of all answers; without ORDER BY, and if a sort fails, the rows stay as they came before the limit is applied |
| GroupKeys.GenerateMapKey | proxy/server/conn_select.go:299-316 | The loop builds the map key of the group columns |
| GroupKeys.MapKeyInjective | proxy/server/conn_select.go:299-316 | Distinct groups of signed or unsigned integers with NULLs, of texts or byte strings without the separator, or of such ones with NULLs but without the text NULL, have distinct keys |
| GroupKeys.TextKeysShared | proxy/server/conn_select.go:299-316 | A group of at least two texts shares its key with another such group if and only if some text contains the separator |
| GroupKeys.NullCollides | proxy/server/conn_resultset.go:26-29 | A NULL in any group can be exchanged for the text NULL without changing the key |
| GroupKeys.FloatReads | proxy/server/conn_resultset.go:51-54 | Whole floating-point numbers print without a point, fractions with their decimals |
| Aggregates.GetCountValue | proxy/server/conn_select.go:702-722 | The sum of the values as integers, modulo 2^64, or the error of the first that is none |
| Aggregates.GetSumFuncExprValue | proxy/server/conn_select.go:538-587 | Integers and floating-point numbers summed apart; the integer sum if there was an integer; an error for types that are not summed |
| Aggregates.GetExtremeFuncExprValue | proxy/server/conn_select.go:589-699 | The best of all values compared with the first that is not NULL, or a panic on values of different types |
| Aggregates.ExtremeIsExtreme | proxy/server/conn_select.go:589-699 | Over NULLs and values of one comparable type that is the greatest or least of them, NULL if there is none |
| Aggregates.ExtremePayload | proxy/server/conn_select.go:589-699 | max and min over signed or unsigned integers, floating-point numbers or texts are one of the values, and no value is above or below it |
| Aggregates.MixedPanics | proxy/server/conn_select.go:613-640 | Values of different types are a panic |
| Aggregates.CountReads | proxy/server/conn_select.go:702-722 | How a count reads values of each type |
| Aggregates.CountAdds | proxy/server/conn_select.go:702-722 | A count adds what it reads, with wrap-around |
| Aggregates.SumOfPairs | proxy/server/conn_select.go:538-587 | Sums of one type add, integers win over floating-point numbers, unsigned integers and texts are refused |
| Aggregates.StatsExtremes | proxy/server/conn_select.go:340-385 | The greatest and least of a column are among its values and no value is beyond them |
| Aggregates.StatsGrow | proxy/server/conn_select.go:340-385 | A value adds one to the count and itself to the sum, a NULL nothing |
| Aggregates.AggregateReads | proxy/server/conn_select.go:340-385 | The aggregates of a column in those terms, unsigned ones included |
| Aggregates.PassedOver | proxy/server/conn_select.go:613-640 | Byte strings are not compared: the value found first stays |
| Aggregates.CalFuncExprValue | proxy/server/conn_select.go:702-750 | The function's value over the values of all answers |
| Aggregates.PairIsCombine | proxy/server/conn_select.go:360-374 | On columns of partial aggregates, the function over the arriving and the kept value is their combination |
| Aggregates.CombineIsMerge | proxy/server/conn_select.go:538-750 | Combining the aggregate of one part with that of the parts before is the aggregate of all of them, for counts, integer and decimal sums, greatest and least, up to 0.0 for a sum without values |
| Aggregates.StatsPermuted | proxy/server/conn_select.go:340-385 | Aggregates do not depend on the order of the rows |
| GroupBy.LoadResultWithFuncIntoMap | proxy/server/conn_select.go:340-385 | The map holds one row per group key: the fold of the rows that arrived with that key |
| GroupBy.FoldedKeeps | proxy/server/conn_select.go:355-380 | Columns that are not aggregated are those of the row that arrived first |
| GroupBy.GroupByMerge | proxy/server/conn_select.go:340-385 | Whatever order answers arrive in, there is one row per group of the logical table, with the group's columns and the aggregates over all its rows |
| GroupBy.BuildGroupByResult | proxy/server/conn_select.go:216-264 | The rows of the map, each once, cut before their group columns |
| Grouped.ShardedGroupBy | proxy/server/conn_select.go:193-264 | Answered if and only if answerable; then the client gets one row for each group of the selected rows of the logical table, without the group columns and with the aggregates over all its rows, and no others |
| Inserts.InsertPlan.GetIRKeyIndex | proxy/router/planbuilder.go:476-493 | The first column named like the sharding key, case aside, or an error |
| Inserts.InsertPlan.GetInsertTableIndex | proxy/router/planbuilder.go:449-472 | Each VALUES row goes to the rows of its own sub-table only, or the statement stops with the error of the first row that has one |
| Inserts.RowsKeepOrder | proxy/router/planbuilder.go:449-472 | The rows of a sub-table are those at exactly the positions whose key is placed there, in ascending order of position |
| Inserts.BuildInsertPlan | proxy/router/router.go:354-398 | An INSERT is planned if and only if it names the key column, every row has a place and every place a node; then: the key column, the sub-tables of the rows each once, their nodes, and one statement per sub-table with exactly its rows |
| Inserts.RowPlaced | proxy/router/planbuilder.go:449-472 | A row has a place if and only if it is long enough and its key can be read, lies in the key space or is a date |
| Inserts.InsertPlan.GenerateInsertSql | proxy/router/router.go:740-778 | One statement per routed sub-table with its rows, grouped by node name |
| Inserts.ShardedInsert | proxy/router/router.go:740-778 | The statements, in whatever order, leave every sub-table as inserting the rows one at a time would |
| Inserts.InsertKeepsPlaced | proxy/router/planbuilder.go:449-472 | Rows stay where queries look for them if and only if every key is placed in a configured sub-table |
| Inserts.LocatedConfigured | proxy/router/planbuilder.go:449-472 | In hash and range rules that is always so |
| Inserts.InsertConserves | proxy/router/router.go:740-778 | The logical table grows by exactly the rows of the statement |
| Inserts.UnconfiguredDate | proxy/router/router.go:755-761 | A date outside every range is routed to an unconfigured sub-table on node 0 |
| Dispatch.Launch | proxy/server/conn_query.go:247-287 | The goroutines' parts fit the result slice, and make it up exactly when every name with statements has a connection |
| Dispatch.StepFills | proxy/server/conn_query.go:254-280 | A step writes inside the slice, into a slot nobody has written, and keeps what the slots mean |
| Dispatch.EverySlotOnce | proxy/server/conn_query.go:230-304 | Under every interleaving no slot is written twice; once all have finished every slot has been written exactly once, with its own answer, if and only if the slice is as long as the statements are many |
| Dispatch.ExecutedIsAll | proxy/server/conn_query.go:254-289 | Under every interleaving, once all have finished every statement has been executed exactly as often as it was handed out |
| Dispatch.ConnNames | proxy/server/conn_query.go:167-200 | Connections are kept under exactly the names the rule has for the routed nodes, each once |
| Dispatch.CollectResults | proxy/server/conn_query.go:291-303 | All results, or the error of the first slot that has one |
| Dispatch.DispatchIff | proxy/server/conn_query.go:167-200 | Every statement is with the goroutine of its sub-table's node if and only if both node lists agree on the routed nodes |
| Dispatch.ConnsMatchSqls | proxy/server/conn_query.go:230-237 | Names that agree give exactly one connection per name with statements |
| Dispatch.PrefixAgrees | proxy/router/router.go:725-731 | A rule's node list that is a prefix of the router's agrees with it |
| Dispatch.MisroutedStatement | proxy/router/router.go:725-731 | A rule on the second node only: counts match and nothing is executed |
| Transactions.ClientConn.HandleBegin | proxy/server/conn_tx.go:31-39 | The new state of the session: in a transaction, begin sent on every kept connection |
| Transactions.ClientConn.Commit | proxy/server/conn_tx.go:57-69 | Every kept connection is committed and given back, none stays |
| Transactions.ClientConn.Rollback | proxy/server/conn_tx.go:71-83 | Every kept connection is rolled back and given back, none stays |
| Transactions.ClientConn.HandleSetAutoCommit | proxy/server/conn_set.go:78-110 | On: transaction over, kept connections ended and given back. Off: in a transaction. Other flags, and quoted 0 or 1, are refused |
| Transactions.ClientConn.GetBackendConn | proxy/server/conn_query.go:116-164 | Outside a transaction a new connection; inside, the kept one of the node, or a new master connection that is started and kept |
| Transactions.ClientConn.GetShardConns | proxy/server/conn_query.go:167-200 | The connections of a statement, refused without nodes, with several nodes in a transaction, or with a node other than the kept one |
| Transactions.ClientConn.CloseShardConns | proxy/server/conn_query.go:316-327 | Outside a transaction every connection is given back, after a rollback if asked; inside, nothing happens |
| Transactions.ClientConn.HandleStatement | proxy/server/conn_query.go:356-379 | A statement's whole effect on session and connections |
| Transactions.StepKeepsInv | proxy/server/conn_tx.go:31-83 | Every command keeps the invariant: connections kept only in a transaction, for one node, and every handle's history well formed |
| Transactions.TransactionRuns | proxy/server/conn_query.go:116-200 | Over every run: a kept connection is on a master, not ended, not given back; every other one was given back exactly once, last of all, and ended by exactly one command if a transaction was started on it; at the server that transaction is then over unless begin started it with autocommit on and set autocommit ended it |
| Transactions.CommitOrRollback | proxy/server/conn_tx.go:57-83 | After any run with a kept connection: commit sends COMMIT and makes exactly the statements of its transaction last; rollback sends ROLLBACK and makes none last but those a begin in between had committed |
| Transactions.BeginOrAutocommit | proxy/server/conn_set.go:89-102 | Begin is sent on the kept connection; switching autocommit on ends it there and gives it back |
| Transactions.EndedServer | proxy/server/conn_tx.go:57-83 | What each way of ending leaves at the server: which statements last and which wait |
| Transactions.Modes | proxy/server/conn_tx.go:22-39 | When a client is in a transaction, after any run |
| Transactions.AutocommitFlags | proxy/server/conn_set.go:78-104 | The flags that are understood |
| Transactions.StatementAccepted | proxy/server/conn_query.go:167-186 | After any run a statement is accepted if and only if it has a node, and in a transaction exactly one, the transaction's own |
| Transactions.StatementOutside | proxy/server/conn_query.go:116-135 | Outside a transaction: a new connection per node, a slave only for a read, executed once, given back |
| Transactions.StatementInside | proxy/server/conn_query.go:136-155 | Inside: executed once on the master, on a connection that is kept and has a transaction started |
| Transactions.GivenBackOpen | proxy/server/conn_set.go:89-102 | A connection goes back with its transaction open if and only if begin started it with autocommit on and set autocommit ended it |
| Transactions.AutocommitLeavesOpen | proxy/server/conn_set.go:89-102 | begin, a statement, set autocommit = 1 is such a run |
| Transactions.SameConnection | proxy/server/conn_query.go:116-200 | Two statements with nothing between them that ends the transaction run on the same connection to the same master |
| Pool.Open | backend/db.go:57-107 | As many slots as configured, the first of them connected, counted as pushed |
| Pool.StepConserves | backend/db.go:209-388 | No step of any client, failing or not, breaks the conservation of slots or the count of pushes and pops |
| Pool.SendsHaveRoom | backend/db.go:218-254 | A client about to send finds room: the dropping default branches are unreachable |
| Pool.StepExclusive | backend/db.go:287-404 | No step lets two owners have one connection |
| Pool.PoolConservation | backend/db.go:57-404 | Over every interleaving: idle + cached + checked-out slots = maxConnNum, pushes - pops = idle + cached between operations, nothing dropped, no connection shared |
| Pool.BrokenIsGone | backend/db.go:287-404 | Over every further interleaving a connection whose ping or reset failed, or that was released as broken, is with no client and not in the cache |
| Pool.HandedOutSound | backend/db.go:287-310 | A connection is handed out only after a ping and a reset that succeeded |
| Pool.CachedIsHanded | backend/db.go:287-330 | A client that finds a cached connection is led to hold the one longest in the cache |
| Pool.IdleIsConnected | backend/db.go:332-348 | With the cache empty it is led to hold a new one |
| Pool.WaitingTakesCached | backend/db.go:349-363 | A client waiting for either channel takes a cached one, too |
| Pool.ReleasedIsCached | backend/db.go:365-404 | A sound connection that is released goes to the end of the cache |
| Pool.BrokenGivesSlot | backend/db.go:218-254 | A broken one gives back its slot and nothing else |
| Pool.FailedPingRetries | backend/db.go:312-363 | After a failed ping the slot is given back, and the client looks on or has an error, depending on where it stood |
| Pool.FailedConnectEnds | backend/db.go:256-348 | A failed connect, first ping or reset is an error, the slot being given back |
| Pool.BlockedWhen | backend/db.go:312-363 | A client has no step if and only if it waits for the cache alone and that is empty, or for either channel and both are |
| Pool.BlockedBehindOthers | backend/db.go:312-363 | All slots but the idle ones are then with clients; a client waiting for either channel waits for slots others have |
| Pool.CacheWaitIgnoresIdle | backend/db.go:312-330 | From a pool of 16 slots or more just opened, with more clients than first connections, a schedule leads to a client without a step although idle slots are free |
| Balancer.Gcd | backend/balancer.go:24-51 | For positive weights the greatest common divisor; a panic if the least is zero; the least itself or the number below it if that is negative |
| Balancer.FillQueue | backend/balancer.go:58-67 | Each slave stands in the queue as often as its weight divided by the divisor, not at all if that is not positive |
| Balancer.Shuffle | backend/balancer.go:69-79 | The random swaps preserve the queue's multiset |
| Balancer.WindowIsFair | backend/balancer.go:82-102 | Any window of the queue read round and round, as long as the queue, has slave i exactly weight_i / gcd times |
| Balancer.Node.NextWindow | backend/balancer.go:82-102 | As many calls of GetNextSlave as the queue is long, from wherever the node stands, give slave i exactly weight_i / gcd times |
| Balancer.Node.InitBalancer | backend/balancer.go:53-80 | The queue indexes live slaves and has their shares, for positive weights weight / gcd each; panics exactly for a least weight of zero or a negative total |
| Balancer.Node.GetNextSlave | backend/balancer.go:82-102 | The slave at the current queue position, and the next position |
| Balancer.Node.AddSlave | backend/node.go:165-196 | Slave and weight are appended and the queue rebuilt; afterwards the node is valid if and only if nothing was added, or the slave was opened and its weight is positive |
| Balancer.Node.DeleteSlave | backend/node.go:198-234 | The slave and its weight go, the others keep theirs, the queue is rebuilt |
| Balancer.Node.ParseSlave | backend/node.go:330-363 | Gets as far as the queue exactly when every weight parses and every slave opens; the lists are those of the entries, and the node is valid if and only if hosts are distinct and weights positive |
| Balancer.EntryReads | backend/node.go:330-363 | An entry host@weight is that host and weight; without the weight, or with more than one @, the weight is 1; what is no number is an error |
| PacketIO.PacketRoundTrip | mysql/packetio.go:46-120 | Reading what was written gives back the payload, the rest of the stream and the same sequence number if and only if the length is not a multiple of the largest chunk |
| PacketIO.FrameBytes | mysql/packetio.go:85-120 | The bytes of a packet that fits one chunk, and the next sequence number |
| PacketIO.Conn.WritePacket | mysql/packetio.go:85-120 | Although each later header overwrites the last bytes of the chunk just sent, what goes out is the framing of the payload as it was |
| PacketIO.Conn.WritePacketBatch | mysql/packetio.go:122-168 | The frames are added to the collected bytes, which go out when flushed |
| PacketIO.BatchRefinesWrite | mysql/packetio.go:85-168 | Collecting any list of packets and flushing once puts out the same bytes, with the same sequence number, as writing each separately |
| PacketIO.Conn.ReadPacket | mysql/packetio.go:46-82 | Reads the packet the framing describes, or refuses it |
| LengthEncoding.IntRoundTrip | mysql/util.go:74-126 | A length-encoded integer is read back whatever follows it |
| LengthEncoding.IntForms | mysql/util.go:74-126 | The four forms, byte by byte, and NULL |
| LengthEncoding.StringForms | mysql/util.go:128-158 | NULL, the empty string and strings cut short |
| LengthEncoding.StringRoundTrip | mysql/util.go:128-165 | A length-encoded string is read back whatever follows it |
| LengthEncoding.PutLengthEncodedString | mysql/util.go:160-165 | Whatever is sent after it, the string is read back and exactly its bytes are taken |
| StmtExecute.Scan | backend/stmt.go:79-149 | The loop yields the NULL bitmap, the types, the values and the new-params-bound flag, or refuses an unsupported type |
| StmtExecute.Write | backend/stmt.go:62-182 | The whole packet, or an error for a wrong number or type of arguments |
| StmtExecute.DecodePayload | proxy/server/conn_stmt.go:334-457 | An encoded argument is decoded under its canonical type, whatever follows it |
| StmtExecute.Stmt.BindStmtArgs | proxy/server/conn_stmt.go:334-457 | The loop stores the arguments that decoding describes, or fails |
| StmtExecute.ExecuteRoundTrip | proxy/server/conn_stmt.go:181-236 | For every list of supported arguments with any pattern of NULLs the decoder recovers the arguments under their canonical types, the all-NULL case included |
| StmtExecute.HeadRoundTrip | proxy/server/conn_stmt.go:181-207 | The statement number is read back, with no cursor and one iteration |
| StmtExecute.TypeCodes | backend/stmt.go:79-149 | The type code and the unsigned flag of every argument type |
| StmtExecute.CanonicalKeeps | proxy/server/conn_stmt.go:334-420 | The canonical type keeps the value |
| StmtExecute.BitmapBytes | backend/stmt.go:79-96 | Which bit of which byte marks a NULL |
| StmtExecute.OtherTypes | proxy/server/conn_stmt.go:370-455 | Years, medium integers, dates and texts that other clients send; unknown types are refused |
| SqlLiteral.InitMaps | sqltypes/sqltypes.go:331-362 | The two escape tables are inverse where a byte is escaped |
| SqlLiteral.EncodeSql | sqltypes/sqltypes.go:302-313 | The quoted, escaped bytes |
| SqlLiteral.LiteralRoundTrip | sqlparser/token.go:359-387 | Scanning the printed literal yields exactly the bytes and stops just past the closing quote if and only if no quote follows |
| SqlLiteral.EscapeLetters | sqltypes/sqltypes.go:336-347 | The nine escaped bytes and their letters |
| SqlLiteral.ScanReads | sqlparser/token.go:359-387 | Doubled quotes, other escapes and unterminated literals |
| SqlLiteral.Tokenizer.Next | sqlparser/token.go:431-439 | One character further in the input |
| SqlLiteral.Tokenizer.ScanString | sqlparser/token.go:359-387 | Ends on every input with the token the scanning function describes |

## Left out

- ORDER BY together with GROUP BY: the merged rows are sorted like any others; not modelled again.
- HAVING, DISTINCT and LIMIT together with GROUP BY: pushed down as they are, and not meaning-preserving across shards.
- Aggregates without GROUP BY (buildFuncExprResult) and GROUP BY without functions are not modelled.
- JOINs, aliases, select expressions and further FROM tables: a printed statement is its sub-table, WHERE tree, qualifiers and limit (`Planner.Rendered`), not its text.
- SELECT without WHERE, and UPDATE, DELETE, REPLACE and TRUNCATE plans are not modelled.
- Inserts.BuildInsertPlan: the check of the first value of each tuple, ON DUPLICATE KEY expressions and unsharded tables are not modelled.
- Rewriter.GenerateSelectSql: an empty list of sub-tables, which stands for an unsharded table sent to the first node as it is, is not modelled.
- Inserts.InsertPlan.GenerateInsertSql: the same empty list is not modelled.
- Pipeline.ShardedInsertRuns: backends accept every row sent to a table that exists; duplicate keys and the rows already stored when another statement of the same INSERT is refused are not modelled.
- Aggregates.GetSumFuncExprValue: floating-point numbers are reals, without rounding; so are the sums in `Grouped.ShardedGroupBy`, whose aggregated columns are integers.
- Aggregates.GetCountValue: a floating-point number outside the 64-bit range, which Go leaves undefined, wraps around.
- GroupKeys.MapKeyInjective: says nothing of floating-point group columns.
- MySQL collations and time zones: byte order and date texts are used instead.
- Integer timestamps as keys of date rules: an error value stands for them (`UnmodelledTimestamp`).
- ParseDayRange: its calendar arithmetic is a parameter that must give ascending days.
- Date literals written in other ways than YYYY-MM-DD or YYYY-MM-DD hh:mm:ss, fractions of seconds and the zero date.
- Inserts.ShardedInsert: a time of day written to a DATE column is dropped, as MySQL does with a note.
- Splitting.ExchangeExact: is about one comparison; a tree around it may hide a difference, so `Splitting.WherePreserved` has the condition as a premise.
- Sorting.CmpValueOrder: cells of different types, which cmpValue refuses to compare, are put in a fixed order.
- StmtExecute.ExecuteRoundTrip: floating-point arguments are carried by their bit patterns; cursors, iteration count and long data are not modelled.
- PacketIO.Conn.ReadPacket: failed reads and writes on the socket end the connection and nothing is said after them.
- Pool.PoolConservation: the pool stays open, and a step is one channel operation, counter update or network outcome; DB.Close and the separate check connection are not modelled, and connections are numbers rather than objects updated in place.
- Transactions.TransactionRuns: backend calls succeed; UseDB and charset changes, unsharded statements inside a transaction, and the connection release on error paths are not modelled.
- Transactions.ClientConn.HandleStatement: the nodes of one statement are distinct, as the planner gives them.
- Balancer.Node.ParseSlave: works on the entries of the list, the splitting at commas being left out.
- Dispatch.EverySlotOnce: what a backend answers to a statement is an arbitrary function of goroutine and statement; it does not depend on the interleaving.
- The parser and its generated tables, the SQL fingerprint, handshake, password hashing, logging, metrics, the web and admin interfaces and configuration files: not part of this model.
