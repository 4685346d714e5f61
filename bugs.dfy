/** Bug aging of scripts/bugs.mjs: the type list, the severity breakdown and its order, age
    buckets and statistics, the five oldest items and the per-assignee distribution. The
    work-item query and fetch are inputs; the clock is the parameter `now`. */
module Bugs {
  import opened Wrappers
  import opened Seqs
  import opened Stats
  import opened Text

  const MsPerDay: int := 86400000

  // ---------------------------------------------------------------------------
  // The type list
  // ---------------------------------------------------------------------------

  function TrimAll(pieces: seq<string>): (r: seq<string>)
    ensures |r| == |pieces| && forall k :: 0 <= k < |r| ==> r[k] == Trim(pieces[k])
  {
    seq(|pieces|, k requires 0 <= k < |pieces| => Trim(pieces[k]))
  }

  function NonEmpty(pieces: seq<string>): (r: seq<string>)
    ensures forall t :: t in r <==> t in pieces && t != ""
  {
    if pieces == [] then []
    else
      assert forall t :: t in pieces <==> t == pieces[0] || t in pieces[1..];
      (if pieces[0] == "" then [] else [pieces[0]]) + NonEmpty(pieces[1..])
  }

  /** `typesRaw.split(',').map(t => t.trim()).filter(Boolean)`. */
  function ParseTypes(raw: string): (types: seq<string>)
    ensures forall t :: t in types ==> t != "" && IsTrimmed(t) && ',' !in t
  {
    var pieces := Split(raw, ',');
    var trimmed := TrimAll(pieces);
    forall k | 0 <= k < |pieces| ensures IsTrimmed(trimmed[k]) && ',' !in trimmed[k] {
      TrimSpec(pieces[k]);
      var i, j :| 0 <= i <= j <= |pieces[k]| && Trim(pieces[k]) == pieces[k][i..j];
      assert forall c :: c in pieces[k][i..j] ==> c in pieces[k];
    }
    NonEmpty(trimmed)
  }

  predicate IsTypeName(t: string) { t != "" && IsTrimmed(t) && ',' !in t }

  lemma {:induction false} NonEmptyKeeps(pieces: seq<string>)
    requires forall k :: 0 <= k < |pieces| ==> pieces[k] != ""
    ensures NonEmpty(pieces) == pieces
  {
    if pieces != [] {
      NonEmptyKeeps(pieces[1..]);
    }
  }

  lemma CleanPieces(types: seq<string>)
    requires forall k :: 0 <= k < |types| ==> IsTypeName(types[k])
    ensures NonEmpty(TrimAll(types)) == types
  {
    forall k | 0 <= k < |types| ensures Trim(types[k]) == types[k] {
      TrimTrimmed(types[k]);
    }
    assert TrimAll(types) == types;
    NonEmptyKeeps(types);
  }

  /** Parsing gives back any list of trimmed, non-empty, comma-free type names joined with
      commas. */
  lemma ParseTypesRoundTrip(types: seq<string>)
    requires forall k :: 0 <= k < |types| ==> IsTypeName(types[k])
    ensures ParseTypes(Join(types, ',')) == types
  {
    if types == [] {
      assert Split([], ',') == [[]];
      assert Trim([]) == [];
    } else {
      SplitJoin(types, ',');
      CleanPieces(types);
    }
  }

  // ---------------------------------------------------------------------------
  // Work items
  // ---------------------------------------------------------------------------

  /** A fetched work item; a missing severity or assignee display name is "". */
  datatype WorkItem = WorkItem(id: int, title: string, severity: string, createdDate: int, assignedTo: string)

  datatype BugRef = BugRef(id: int, title: string)

  /** `f['Microsoft.VSTS.Common.Severity'] || 'Unspecified'`. */
  function SeverityOf(wi: WorkItem): string { if wi.severity == "" then "Unspecified" else wi.severity }

  /** `f['System.AssignedTo']?.displayName || 'Unassigned'`. */
  function AssigneeOf(wi: WorkItem): string { if wi.assignedTo == "" then "Unassigned" else wi.assignedTo }

  function RefOf(wi: WorkItem): BugRef { BugRef(wi.id, wi.title) }

  // ---------------------------------------------------------------------------
  // Severity groups
  // ---------------------------------------------------------------------------

  datatype Group = Group(severity: string, bugs: seq<BugRef>)

  /** The position of the entry stored under `key` in a plain object whose entries are kept
      in `s` and keyed by `keyOf`; every key occurs at most once, so the last match is the
      only one. */
  function KeyIndex<T>(s: seq<T>, keyOf: T -> string, key: string): (r: Option<nat>)
    ensures r.None? <==> forall k :: 0 <= k < |s| ==> keyOf(s[k]) != key
    ensures r.Some? ==> r.value < |s| && keyOf(s[r.value]) == key
  {
    if s == [] then None
    else if keyOf(s[|s| - 1]) == key then Some(|s| - 1)
    else
      assert forall k :: 0 <= k < |s| - 1 ==> s[k] == s[..|s| - 1][k];
      KeyIndex(s[..|s| - 1], keyOf, key)
  }

  /** Updating entries without changing their keys leaves every lookup where it was. */
  lemma {:induction false} KeyIndexSameKeys<T>(a: seq<T>, b: seq<T>, keyOf: T -> string, key: string)
    requires |a| == |b| && forall k :: 0 <= k < |a| ==> keyOf(a[k]) == keyOf(b[k])
    ensures KeyIndex(a, keyOf, key) == KeyIndex(b, keyOf, key)
  {
    if a != [] {
      KeyIndexSameKeys(a[..|a| - 1], b[..|b| - 1], keyOf, key);
    }
  }

  function GroupKey(g: Group): string { g.severity }

  /** `key in severityGroups`. */
  function GroupIndex(groups: seq<Group>, key: string): (r: Option<nat>)
    ensures r.None? <==> forall k :: 0 <= k < |groups| ==> groups[k].severity != key
    ensures r.Some? ==> r.value < |groups| && groups[r.value].severity == key
  {
    KeyIndex(groups, GroupKey, key)
  }

  /** `severityGroups[severity]`, or nothing when the key is absent. */
  function Lookup(groups: seq<Group>, key: string): seq<BugRef> {
    match GroupIndex(groups, key)
    case None => []
    case Some(k) => groups[k].bugs
  }

  /** The body of the grouping loop for one item. */
  function AddToGroup(groups: seq<Group>, wi: WorkItem): seq<Group> {
    var sev := SeverityOf(wi);
    match GroupIndex(groups, sev)
    case None => groups + [Group(sev, [RefOf(wi)])]
    case Some(k) => groups[k := groups[k].(bugs := groups[k].bugs + [RefOf(wi)])]
  }

  /** `severityGroups` after the loop, in key insertion order. */
  function GroupsOf(items: seq<WorkItem>): seq<Group> {
    if items == [] then [] else AddToGroup(GroupsOf(items[..|items| - 1]), items[|items| - 1])
  }

  lemma GroupsOfStep(items: seq<WorkItem>, i: nat)
    requires i < |items|
    ensures GroupsOf(items[..i + 1]) == AddToGroup(GroupsOf(items[..i]), items[i])
  {
    assert items[..i + 1][..i] == items[..i];
  }

  /** The grouping loop. */
  method GroupBySeverity(items: seq<WorkItem>) returns (severityGroups: seq<Group>)
    ensures severityGroups == GroupsOf(items)
  {
    severityGroups := [];
    var i := 0;
    while i < |items|
      invariant i <= |items|
      invariant severityGroups == GroupsOf(items[..i])
    {
      var wi := items[i];
      var severity := SeverityOf(wi);
      var k := GroupIndex(severityGroups, severity);
      ghost var before := severityGroups;
      if k.None? {
        severityGroups := severityGroups + [Group(severity, [])];
        k := Some(|severityGroups| - 1);
      }
      var group := severityGroups[k.value];
      group := group.(bugs := group.bugs + [RefOf(wi)]);
      severityGroups := severityGroups[k.value := group];
      if GroupIndex(before, severity).None? {
        assert group == Group(severity, [RefOf(wi)]);
        assert severityGroups == before + [Group(severity, [RefOf(wi)])];
      } else {
        assert severityGroups == before[k.value := before[k.value].(bugs := before[k.value].bugs + [RefOf(wi)])];
      }
      GroupsOfStep(items, i);
      i := i + 1;
    }
    assert items[..i] == items;
  }

  /** The items of a severity, in input order. */
  function RefsWith(items: seq<WorkItem>, sev: string): seq<BugRef> {
    if items == [] then []
    else RefsWith(items[..|items| - 1], sev) + (if SeverityOf(items[|items| - 1]) == sev then [RefOf(items[|items| - 1])] else [])
  }

  lemma AddToGroupLookup(groups: seq<Group>, wi: WorkItem, key: string)
    ensures Lookup(AddToGroup(groups, wi), key) ==
            Lookup(groups, key) + (if SeverityOf(wi) == key then [RefOf(wi)] else [])
    ensures GroupIndex(AddToGroup(groups, wi), key).Some? <==> GroupIndex(groups, key).Some? || SeverityOf(wi) == key
  {
    var sev := SeverityOf(wi);
    match GroupIndex(groups, sev)
    case None =>
      var g := groups + [Group(sev, [RefOf(wi)])];
      assert g[..|g| - 1] == groups;
    case Some(k) =>
      KeyIndexSameKeys(groups, groups[k := groups[k].(bugs := groups[k].bugs + [RefOf(wi)])], GroupKey, key);
  }

  /** Every item lands in the group of its severity (`'Unspecified'` when it has none), in
      input order, and a key exists exactly for the severities that occur. */
  lemma {:induction false} GroupsSpec(items: seq<WorkItem>, sev: string)
    ensures Lookup(GroupsOf(items), sev) == RefsWith(items, sev)
    ensures GroupIndex(GroupsOf(items), sev).Some? <==> RefsWith(items, sev) != []
  {
    if items != [] {
      GroupsSpec(items[..|items| - 1], sev);
      AddToGroupLookup(GroupsOf(items[..|items| - 1]), items[|items| - 1], sev);
    }
  }

  ghost predicate DistinctKeys(groups: seq<Group>) {
    forall a, b :: 0 <= a < b < |groups| ==> groups[a].severity != groups[b].severity
  }

  /** Groups are distinct keys with at least one item each. */
  lemma {:induction false} GroupsWellFormed(items: seq<WorkItem>)
    ensures DistinctKeys(GroupsOf(items))
    ensures forall k :: 0 <= k < |GroupsOf(items)| ==> GroupsOf(items)[k].bugs != []
  {
    if items != [] {
      var prefix := items[..|items| - 1];
      var wi := items[|items| - 1];
      var groups := GroupsOf(prefix);
      GroupsWellFormed(prefix);
      var sev := SeverityOf(wi);
      match GroupIndex(groups, sev)
      case None =>
        var g := groups + [Group(sev, [RefOf(wi)])];
        assert GroupsOf(items) == g;
        assert forall k :: 0 <= k < |groups| ==> g[k] == groups[k];
      case Some(j) =>
        var g := groups[j := groups[j].(bugs := groups[j].bugs + [RefOf(wi)])];
        assert GroupsOf(items) == g;
        assert forall k :: 0 <= k < |groups| ==> g[k].severity == groups[k].severity;
    }
  }

  function GroupSize(g: Group): nat { |g.bugs| }

  /** The group sizes add up to the number of items. */
  lemma {:induction false} GroupsTotal(items: seq<WorkItem>)
    ensures SumBy(GroupsOf(items), GroupSize) == |items|
  {
    if items != [] {
      var prefix := items[..|items| - 1];
      var wi := items[|items| - 1];
      var groups := GroupsOf(prefix);
      GroupsTotal(prefix);
      match GroupIndex(groups, SeverityOf(wi))
      case None => SumByAppend(groups, Group(SeverityOf(wi), [RefOf(wi)]), GroupSize);
      case Some(k) => SumByUpdate(groups, k, groups[k].(bugs := groups[k].bugs + [RefOf(wi)]), GroupSize);
    }
  }

  // ---------------------------------------------------------------------------
  // Severity order
  // ---------------------------------------------------------------------------

  /** The comparator of `sortedSeverities`, as "may stand before": keys with a leading
      integer by that integer and ahead of all others, the others in code-point order. */
  predicate SevLe(a: string, b: string) {
    var na, nb := LeadingInt(a), LeadingInt(b);
    if na.Some? && nb.Some? then na.value <= nb.value
    else if na.Some? then true
    else if nb.Some? then false
    else LexLe(a, b)
  }

  lemma SevOrderIsTotal()
    ensures TotalPreorder(SevLe)
  {
    forall a, b ensures SevLe(a, b) || SevLe(b, a) {
      LexLeTotal(a, b);
    }
    forall a, b, c | SevLe(a, b) && SevLe(b, c) ensures SevLe(a, c) {
      if LeadingInt(a).None? && LeadingInt(b).None? && LeadingInt(c).None? {
        LexLeTransitive(a, b, c);
      }
    }
  }

  function Keys(groups: seq<Group>): (ks: seq<string>)
    ensures |ks| == |groups| && forall k :: 0 <= k < |ks| ==> ks[k] == groups[k].severity
  {
    if groups == [] then [] else [groups[0].severity] + Keys(groups[1..])
  }

  datatype SeverityEntry = SeverityEntry(severity: string, count: nat, bugs: seq<BugRef>)

  /** `severityBreakdown[sev] = { count, bugs }` for each key in the given order. */
  function BreakdownFrom(keys: seq<string>, groups: seq<Group>): (es: seq<SeverityEntry>)
    ensures |es| == |keys|
    ensures forall k :: 0 <= k < |keys| ==> es[k] == SeverityEntry(keys[k], |Lookup(groups, keys[k])|, Lookup(groups, keys[k]))
  {
    if keys == [] then []
    else
      var bugs := Lookup(groups, keys[0]);
      [SeverityEntry(keys[0], |bugs|, bugs)] + BreakdownFrom(keys[1..], groups)
  }

  /** `severityBreakdown`: the groups in the order of their sorted keys. */
  function Breakdown(items: seq<WorkItem>): seq<SeverityEntry> {
    var groups := GroupsOf(items);
    BreakdownFrom(SortBy(Keys(groups), SevLe), groups)
  }

  function EntryCount(e: SeverityEntry): nat { e.count }

  lemma {:induction false} BreakdownFromTotal(keys: seq<string>, groups: seq<Group>, f: string -> nat)
    requires forall k :: f(k) == |Lookup(groups, k)|
    ensures SumBy(BreakdownFrom(keys, groups), EntryCount) == SumBy(keys, f)
  {
    if keys != [] {
      BreakdownFromTotal(keys[1..], groups, f);
    }
  }

  lemma {:induction false} KeysTotal(h: seq<Group>, f: string -> nat)
    requires forall i :: 0 <= i < |h| ==> f(h[i].severity) == |h[i].bugs|
    ensures SumBy(Keys(h), f) == SumBy(h, GroupSize)
  {
    if h != [] {
      KeysTotal(h[1..], f);
    }
  }

  /** The breakdown's counts add up to the number of items. */
  lemma BreakdownTotal(items: seq<WorkItem>)
    ensures SumBy(Breakdown(items), EntryCount) == |items|
  {
    var groups := GroupsOf(items);
    var keys := Keys(groups);
    GroupsWellFormed(items);
    GroupsTotal(items);
    BreakdownFromTotal(SortBy(keys, SevLe), groups, SizeUnder(groups));
    SumBySortBy(keys, SevLe, SizeUnder(groups));
    KeysSizeTotal(groups);
  }

  /** The number of items stored under a key. */
  function SizeUnder(groups: seq<Group>): string -> nat {
    (k: string) => |Lookup(groups, k)|
  }

  lemma KeysSizeTotal(groups: seq<Group>)
    requires DistinctKeys(groups)
    ensures SumBy(Keys(groups), SizeUnder(groups)) == SumBy(groups, GroupSize)
  {
    forall i | 0 <= i < |groups| ensures SizeUnder(groups)(groups[i].severity) == |groups[i].bugs| {
      LookupAt(groups, i);
    }
    KeysTotal(groups, SizeUnder(groups));
  }

  lemma LookupAt(groups: seq<Group>, i: nat)
    requires DistinctKeys(groups) && i < |groups|
    ensures Lookup(groups, groups[i].severity) == groups[i].bugs
  {
    var r := GroupIndex(groups, groups[i].severity);
    assert r.Some?;
  }

  /** Each entry holds all items of its severity, in input order, and counts them. */
  lemma BreakdownEntries(items: seq<WorkItem>)
    ensures var b := Breakdown(items);
      forall k :: 0 <= k < |b| ==> b[k].bugs == RefsWith(items, b[k].severity) && b[k].count == |b[k].bugs|
  {
    var b := Breakdown(items);
    forall k | 0 <= k < |b| ensures b[k].bugs == RefsWith(items, b[k].severity) {
      GroupsSpec(items, b[k].severity);
    }
  }

  /** A severity has an entry exactly when some item has it. */
  lemma {:induction false} BreakdownKeys(items: seq<WorkItem>, sev: string)
    ensures var b := Breakdown(items);
      RefsWith(items, sev) != [] <==> exists k :: 0 <= k < |b| && b[k].severity == sev
  {
    var groups := GroupsOf(items);
    var sorted := SortBy(Keys(groups), SevLe);
    assert Breakdown(items) == BreakdownFrom(sorted, groups);
    GroupsSpec(items, sev);
    SortedKeysHas(groups, sev);
    BreakdownFromHas(sorted, groups, sev);
  }

  /** The entries built from some keys are keyed by exactly those keys. */
  lemma BreakdownFromHas(keys: seq<string>, groups: seq<Group>, sev: string)
    ensures var b := BreakdownFrom(keys, groups);
      sev in keys <==> exists k :: 0 <= k < |b| && b[k].severity == sev
  {
    var b := BreakdownFrom(keys, groups);
    if sev in keys {
      var k :| 0 <= k < |keys| && keys[k] == sev;
      assert b[k].severity == sev;
    }
  }

  /** A key is among the sorted keys exactly when a group has it. */
  lemma SortedKeysHas(groups: seq<Group>, sev: string)
    ensures sev in SortBy(Keys(groups), SevLe) <==> GroupIndex(groups, sev).Some?
  {
    var keys := Keys(groups);
    SortByMembers(keys, SevLe, sev);
    if sev in keys {
      var i :| 0 <= i < |keys| && keys[i] == sev;
      assert groups[i].severity == sev;
    }
    if GroupIndex(groups, sev).Some? {
      assert keys[GroupIndex(groups, sev).value] == sev;
    }
  }

  /** The breakdown's keys are in severity order. */
  lemma BreakdownOrdered(items: seq<WorkItem>)
    ensures var b := Breakdown(items);
      forall i, j :: 0 <= i < j < |b| ==> SevLe(b[i].severity, b[j].severity)
  {
    SevOrderIsTotal();
    SortBySorted(Keys(GroupsOf(items)), SevLe);
  }

  /** What the order means: a key with a leading integer comes before any key without one,
      two numbered keys are ascending by that integer, and two others are in code-point
      order. */
  lemma SeverityOrderMeaning(a: string, b: string)
    requires SevLe(a, b)
    ensures LeadingInt(a).None? ==> LeadingInt(b).None? && LexLe(a, b)
    ensures LeadingInt(a).Some? && LeadingInt(b).Some? ==> LeadingInt(a).value <= LeadingInt(b).value
  {
  }

  lemma LeadingIntOfLabel(n: nat, digits: string, rest: string, s: string)
    requires digits == NatToString(n) && s == digits + rest
    requires rest == [] || !IsDigit(rest[0])
    ensures LeadingInt(s) == Some(n)
  {
    LeadingIntOfNumberedLabel(n, rest);
  }

  lemma LeadingIntOfHigh(high: string)
    requires high == "2 - High"
    ensures LeadingInt(high) == Some(2)
  {
    assert NatToString(2) == "2";
    LeadingIntOfLabel(2, "2", " - High", high);
  }

  lemma LeadingIntOfLow(low: string)
    requires low == "10 - Low"
    ensures LeadingInt(low) == Some(10)
  {
    assert NatToString(10) == "10";
    LeadingIntOfLabel(10, "10", " - Low", low);
  }

  /** A label numbered 2 sorts before one numbered 10 by number, though "10" comes first
      in code-point order. */
  lemma NumberedSeveritiesByValue(high: string, low: string)
    requires high == "2 - High" && low == "10 - Low"
    ensures SevLe(high, low) && !SevLe(low, high)
  {
    LeadingIntOfHigh(high);
    LeadingIntOfLow(low);
  }

  // ---------------------------------------------------------------------------
  // Ages
  // ---------------------------------------------------------------------------

  /** `Math.floor((now - created) / 86400000)`: Dafny's division by a positive divisor
      rounds down, as `Math.floor` does. */
  function AgeDays(wi: WorkItem, now: int): (d: int)
    ensures d * MsPerDay <= now - wi.createdDate < (d + 1) * MsPerDay
  {
    (now - wi.createdDate) / MsPerDay
  }

  function Ages(items: seq<WorkItem>, now: int): (ages: seq<int>)
    ensures |ages| == |items| && forall k :: 0 <= k < |items| ==> ages[k] == AgeDays(items[k], now)
  {
    if items == [] then [] else [AgeDays(items[0], now)] + Ages(items[1..], now)
  }

  datatype Buckets = Buckets(upTo7: nat, upTo30: nat, upTo90: nat, over90: nat)

  /** `buckets[...]++` for one age. */
  function Bucket(b: Buckets, age: int): Buckets {
    if age <= 7 then b.(upTo7 := b.upTo7 + 1)
    else if age <= 30 then b.(upTo30 := b.upTo30 + 1)
    else if age <= 90 then b.(upTo90 := b.upTo90 + 1)
    else b.(over90 := b.over90 + 1)
  }

  function BucketsOf(ages: seq<int>): Buckets {
    if ages == [] then Buckets(0, 0, 0, 0) else Bucket(BucketsOf(ages[..|ages| - 1]), ages[|ages| - 1])
  }

  /** The bucket loop. */
  method CountBuckets(ages: seq<int>) returns (buckets: Buckets)
    ensures buckets == BucketsOf(ages)
  {
    buckets := Buckets(0, 0, 0, 0);
    var i := 0;
    while i < |ages|
      invariant i <= |ages|
      invariant buckets == BucketsOf(ages[..i])
    {
      var age := ages[i];
      if age <= 7 {
        buckets := buckets.(upTo7 := buckets.upTo7 + 1);
      } else if age <= 30 {
        buckets := buckets.(upTo30 := buckets.upTo30 + 1);
      } else if age <= 90 {
        buckets := buckets.(upTo90 := buckets.upTo90 + 1);
      } else {
        buckets := buckets.(over90 := buckets.over90 + 1);
      }
      assert ages[..i + 1][..i] == ages[..i];
      i := i + 1;
    }
    assert ages[..i] == ages;
  }

  predicate InFirstWeek(age: int) { age <= 7 }
  predicate InFirstMonth(age: int) { 7 < age <= 30 }
  predicate InFirstQuarter(age: int) { 30 < age <= 90 }
  predicate OlderThanQuarter(age: int) { 90 < age }

  /** Each bucket counts exactly the ages in its range (the first also takes negative ages
      from future creation dates), so the four counts add up to the number of ages. */
  lemma {:induction false} BucketsSpec(ages: seq<int>)
    ensures var b := BucketsOf(ages);
      && b.upTo7 == Count(ages, InFirstWeek)
      && b.upTo30 == Count(ages, InFirstMonth)
      && b.upTo90 == Count(ages, InFirstQuarter)
      && b.over90 == Count(ages, OlderThanQuarter)
      && b.upTo7 + b.upTo30 + b.upTo90 + b.over90 == |ages|
  {
    if ages != [] {
      BucketsSpec(ages[..|ages| - 1]);
    }
  }

  datatype AgeAnalysis = AgeAnalysis(meanDays: Option<real>, medianDays: Option<real>, buckets: Buckets)

  function AsReals(ages: seq<int>): (r: seq<real>)
    ensures |r| == |ages| && forall k :: 0 <= k < |ages| ==> r[k] == ages[k] as real
  {
    if ages == [] then [] else [ages[0] as real] + AsReals(ages[1..])
  }

  function AgeAnalysisOf(ages: seq<int>): AgeAnalysis {
    var days := AsReals(ages);
    AgeAnalysis(Mean(days), Median(days), BucketsOf(ages))
  }

  // ---------------------------------------------------------------------------
  // The five oldest
  // ---------------------------------------------------------------------------

  const TopCount: nat := 5

  /** `(a, b) => new Date(a.created) - new Date(b.created)`. */
  function ByCreatedAsc(a: WorkItem, b: WorkItem): bool { a.createdDate <= b.createdDate }

  datatype TopEntry = TopEntry(id: int, title: string, severity: string, ageDays: int, assignedTo: string, createdDate: int)

  function TopEntryOf(wi: WorkItem, now: int): TopEntry {
    TopEntry(wi.id, wi.title, SeverityOf(wi), AgeDays(wi, now), AssigneeOf(wi), wi.createdDate)
  }

  function TopEntries(items: seq<WorkItem>, now: int): (r: seq<TopEntry>)
    ensures |r| == |items| && forall k :: 0 <= k < |items| ==> r[k] == TopEntryOf(items[k], now)
  {
    if items == [] then [] else [TopEntryOf(items[0], now)] + TopEntries(items[1..], now)
  }

  /** `sortedByAge.slice(0, 5).map(...)`. */
  function Top5Oldest(items: seq<WorkItem>, now: int): seq<TopEntry> {
    var sorted := SortBy(items, ByCreatedAsc);
    TopEntries(sorted[..if |sorted| < TopCount then |sorted| else TopCount], now)
  }

  lemma CreatedOrderIsTotal()
    ensures TotalPreorder(ByCreatedAsc)
  {
  }

  /** The list holds min(5, n) entries, each the entry of one of the items, with severity
      and assignee falling back to 'Unspecified' and 'Unassigned'. */
  lemma Top5Shape(items: seq<WorkItem>, now: int)
    ensures var top := Top5Oldest(items, now);
      && |top| == (if |items| < TopCount then |items| else TopCount)
      && (forall j :: 0 <= j < |top| ==> exists wi :: wi in items && top[j] == TopEntryOf(wi, now))
      && (forall j :: 0 <= j < |top| ==> top[j].severity != "" && top[j].assignedTo != "")
      && exists taken: seq<WorkItem>, rest: seq<WorkItem> ::
           && multiset(taken) + multiset(rest) == multiset(items)
           && top == TopEntries(taken, now)
           && forall x, y :: x in taken && y in rest ==> x.createdDate <= y.createdDate
  {
    Top5FromItems(items, now);
    Top5Partition(items, now);
  }

  /** Each entry is built from one of the items. */
  lemma Top5FromItems(items: seq<WorkItem>, now: int)
    ensures var top := Top5Oldest(items, now);
      forall j :: 0 <= j < |top| ==> exists wi :: wi in items && top[j] == TopEntryOf(wi, now)
  {
    var sorted := SortBy(items, ByCreatedAsc);
    var top := Top5Oldest(items, now);
    forall j | 0 <= j < |top| ensures exists wi :: wi in items && top[j] == TopEntryOf(wi, now) {
      SortByMembers(items, ByCreatedAsc, sorted[j]);
    }
  }

  /** The top list is taken from a split of the items, each item used once, in which nothing
      taken is newer than anything left. */
  lemma Top5Partition(items: seq<WorkItem>, now: int)
    ensures exists taken: seq<WorkItem>, rest: seq<WorkItem> ::
      && multiset(taken) + multiset(rest) == multiset(items)
      && Top5Oldest(items, now) == TopEntries(taken, now)
      && forall x, y :: x in taken && y in rest ==> x.createdDate <= y.createdDate
  {
    var sorted := SortBy(items, ByCreatedAsc);
    var m := if |sorted| < TopCount then |sorted| else TopCount;
    var taken, rest := sorted[..m], sorted[m..];
    assert sorted == taken + rest;
    assert multiset(taken) + multiset(rest) == multiset(items);
    CreatedOrderIsTotal();
    SortBySorted(items, ByCreatedAsc);
    SplitOldestFirst(sorted, m);
    assert Top5Oldest(items, now) == TopEntries(taken, now);
  }

  /** Splitting a list sorted by creation date leaves nothing in the front newer than
      anything behind. */
  lemma SplitOldestFirst(sorted: seq<WorkItem>, m: nat)
    requires m <= |sorted|
    requires Sorted(sorted, ByCreatedAsc)
    ensures forall x, y :: x in sorted[..m] && y in sorted[m..] ==> x.createdDate <= y.createdDate
  {
    forall x, y | x in sorted[..m] && y in sorted[m..] ensures x.createdDate <= y.createdDate {
      var i :| 0 <= i < m && sorted[i] == x;
      var j :| m <= j < |sorted| && sorted[j] == y;
      assert ByCreatedAsc(sorted[i], sorted[j]);
    }
  }

  /** The entries are in ascending creation order, none was created later than any item left
      out, and the first is the oldest of all. */
  lemma Top5Order(items: seq<WorkItem>, now: int)
    ensures var top := Top5Oldest(items, now);
      var sorted := SortBy(items, ByCreatedAsc);
      && (forall i, j :: 0 <= i < j < |top| ==> top[i].createdDate <= top[j].createdDate)
      && (forall j, k :: 0 <= j < |top| && TopCount <= k < |sorted| ==> top[j].createdDate <= sorted[k].createdDate)
      && (top != [] ==> forall k :: 0 <= k < |items| ==> top[0].createdDate <= items[k].createdDate)
  {
    var sorted := SortBy(items, ByCreatedAsc);
    SortedByAge(items);
    var top := Top5Oldest(items, now);
    assert forall j :: 0 <= j < |top| ==> top[j].createdDate == sorted[j].createdDate;
  }

  /** The copy sorted by creation date is in ascending order and starts with the oldest. */
  lemma SortedByAge(items: seq<WorkItem>)
    ensures var sorted := SortBy(items, ByCreatedAsc);
      && (forall i, j :: 0 <= i < j < |sorted| ==> sorted[i].createdDate <= sorted[j].createdDate)
      && (sorted != [] ==> forall k :: 0 <= k < |items| ==> sorted[0].createdDate <= items[k].createdDate)
  {
    var sorted := SortBy(items, ByCreatedAsc);
    CreatedOrderIsTotal();
    SortBySorted(items, ByCreatedAsc);
    if sorted != [] {
      forall k | 0 <= k < |items| ensures sorted[0].createdDate <= items[k].createdDate {
        SortByMembers(items, ByCreatedAsc, items[k]);
        var m :| 0 <= m < |sorted| && sorted[m] == items[k];
        if m > 0 { assert ByCreatedAsc(sorted[0], sorted[m]); }
      }
    }
  }

  // ---------------------------------------------------------------------------
  // Assignment distribution
  // ---------------------------------------------------------------------------

  datatype SevCount = SevCount(severity: string, count: nat)

  datatype Assignee = Assignee(assignee: string, count: nat, severities: seq<SevCount>)

  function SevKey(c: SevCount): string { c.severity }

  function AssigneeKey(g: Assignee): string { g.assignee }

  /** `sev in severities` for one assignee's counters. */
  function SevIndex(sevs: seq<SevCount>, key: string): (r: Option<nat>)
    ensures r.None? <==> forall k :: 0 <= k < |sevs| ==> sevs[k].severity != key
    ensures r.Some? ==> r.value < |sevs| && sevs[r.value].severity == key
  {
    KeyIndex(sevs, SevKey, key)
  }

  /** `assignee in assigneeGroups`. */
  function AssigneeIndex(groups: seq<Assignee>, key: string): (r: Option<nat>)
    ensures r.None? <==> forall k :: 0 <= k < |groups| ==> groups[k].assignee != key
    ensures r.Some? ==> r.value < |groups| && groups[r.value].assignee == key
  {
    KeyIndex(groups, AssigneeKey, key)
  }

  /** `severities[sev] = (severities[sev] || 0) + 1`. */
  function BumpSeverity(sevs: seq<SevCount>, sev: string): seq<SevCount> {
    match SevIndex(sevs, sev)
    case None => sevs + [SevCount(sev, 1)]
    case Some(k) => sevs[k := SevCount(sev, sevs[k].count + 1)]
  }

  function Record(g: Assignee, wi: WorkItem): Assignee {
    g.(count := g.count + 1, severities := BumpSeverity(g.severities, SeverityOf(wi)))
  }

  /** The body of the assignee loop for one item. */
  function AddAssigned(groups: seq<Assignee>, wi: WorkItem): seq<Assignee> {
    var a := AssigneeOf(wi);
    match AssigneeIndex(groups, a)
    case None => groups + [Record(Assignee(a, 0, []), wi)]
    case Some(k) => groups[k := Record(groups[k], wi)]
  }

  /** `assigneeGroups` after the loop, in key insertion order. */
  function AssigneesOf(items: seq<WorkItem>): seq<Assignee> {
    if items == [] then [] else AddAssigned(AssigneesOf(items[..|items| - 1]), items[|items| - 1])
  }

  /** `severities[sev] = (severities[sev] || 0) + 1` on one assignee's counters. */
  method CountSeverity(severities: seq<SevCount>, sev: string) returns (r: seq<SevCount>)
    ensures r == BumpSeverity(severities, sev)
  {
    var s := SevIndex(severities, sev);
    if s.None? {
      r := severities + [SevCount(sev, 1)];
    } else {
      r := severities[s.value := SevCount(sev, severities[s.value].count + 1)];
    }
  }

  lemma AssigneesOfStep(items: seq<WorkItem>, i: nat)
    requires i < |items|
    ensures AssigneesOf(items[..i + 1]) == AddAssigned(AssigneesOf(items[..i]), items[i])
  {
    assert items[..i + 1][..i] == items[..i];
  }

  /** The body of the assignee loop for one item: create the assignee's group when it is
      missing, then bump its count and the item's severity counter in place. */
  method AssignOne(assigneeGroups: seq<Assignee>, wi: WorkItem) returns (r: seq<Assignee>)
    ensures r == AddAssigned(assigneeGroups, wi)
  {
    var assignee := AssigneeOf(wi);
    var k := AssigneeIndex(assigneeGroups, assignee);
    r := assigneeGroups;
    if k.None? {
      r := r + [Assignee(assignee, 0, [])];
      k := Some(|r| - 1);
    }
    var group := r[k.value];
    ghost var g0 := group;
    group := group.(count := group.count + 1);
    var sev := SeverityOf(wi);
    var severities := CountSeverity(group.severities, sev);
    group := group.(severities := severities);
    assert group == Record(g0, wi);
    ghost var mid := r;
    r := r[k.value := group];
    if AssigneeIndex(assigneeGroups, assignee).None? {
      assert mid == assigneeGroups + [Assignee(assignee, 0, [])] && k.value == |assigneeGroups|;
      assert r == assigneeGroups + [Record(Assignee(assignee, 0, []), wi)];
    }
  }

  /** The assignee loop, updating each group's count and severity counters in place. */
  method GroupByAssignee(items: seq<WorkItem>) returns (assigneeGroups: seq<Assignee>)
    ensures assigneeGroups == AssigneesOf(items)
  {
    assigneeGroups := [];
    var i := 0;
    while i < |items|
      invariant i <= |items|
      invariant assigneeGroups == AssigneesOf(items[..i])
    {
      AssigneesOfStep(items, i);
      assigneeGroups := AssignOne(assigneeGroups, items[i]);
      i := i + 1;
    }
    assert items[..i] == items;
  }

  function SevCountOf(c: SevCount): nat { c.count }

  function AssigneeCount(g: Assignee): nat { g.count }

  /** Keys are distinct and each group's count is the sum of its severity counters. */
  ghost predicate WellCounted(groups: seq<Assignee>) {
    && (forall a, b :: 0 <= a < b < |groups| ==> groups[a].assignee != groups[b].assignee)
    && (forall k :: 0 <= k < |groups| ==> groups[k].count == SumBy(groups[k].severities, SevCountOf))
  }

  lemma BumpSeverityTotal(sevs: seq<SevCount>, sev: string)
    ensures SumBy(BumpSeverity(sevs, sev), SevCountOf) == SumBy(sevs, SevCountOf) + 1
  {
    match SevIndex(sevs, sev)
    case None => SumByAppend(sevs, SevCount(sev, 1), SevCountOf);
    case Some(k) => SumByUpdate(sevs, k, SevCount(sev, sevs[k].count + 1), SevCountOf);
  }

  /** Assignee keys are distinct and every assignee's count equals the sum of its severity
      counters. */
  lemma {:induction false} AssigneesWellCounted(items: seq<WorkItem>)
    ensures WellCounted(AssigneesOf(items))
  {
    if items != [] {
      var prefix := items[..|items| - 1];
      var wi := items[|items| - 1];
      var groups := AssigneesOf(prefix);
      AssigneesWellCounted(prefix);
      var a := AssigneeOf(wi);
      match AssigneeIndex(groups, a)
      case None =>
        var g := groups + [Record(Assignee(a, 0, []), wi)];
        assert AssigneesOf(items) == g;
        BumpSeverityTotal([], SeverityOf(wi));
        assert forall k :: 0 <= k < |groups| ==> g[k] == groups[k];
      case Some(j) =>
        var g := groups[j := Record(groups[j], wi)];
        assert AssigneesOf(items) == g;
        BumpSeverityTotal(groups[j].severities, SeverityOf(wi));
        assert forall k :: 0 <= k < |groups| ==> g[k].assignee == groups[k].assignee;
    }
  }

  /** The assignee counts add up to the number of items. */
  lemma {:induction false} AssigneesTotal(items: seq<WorkItem>)
    ensures SumBy(AssigneesOf(items), AssigneeCount) == |items|
  {
    if items != [] {
      var prefix := items[..|items| - 1];
      var wi := items[|items| - 1];
      var groups := AssigneesOf(prefix);
      AssigneesTotal(prefix);
      var a := AssigneeOf(wi);
      match AssigneeIndex(groups, a)
      case None =>
        var added := Record(Assignee(a, 0, []), wi);
        assert AssigneesOf(items) == groups + [added];
        SumByAppend(groups, added, AssigneeCount);
      case Some(j) =>
        var updated := Record(groups[j], wi);
        assert AssigneesOf(items) == groups[j := updated];
        SumByUpdate(groups, j, updated, AssigneeCount);
    }
  }

  /** The number of items assigned to `a`. */
  function AssignedTo(items: seq<WorkItem>, a: string): nat {
    if items == [] then 0
    else AssignedTo(items[..|items| - 1], a) + (if AssigneeOf(items[|items| - 1]) == a then 1 else 0)
  }

  /** An assignee has a group exactly when some item is assigned to them, and its count is
      the number of those items. */
  lemma {:induction false} AssigneeCountSpec(items: seq<WorkItem>, a: string)
    ensures AssigneeIndex(AssigneesOf(items), a).None? <==> AssignedTo(items, a) == 0
    ensures AssigneeIndex(AssigneesOf(items), a).Some? ==>
      AssigneesOf(items)[AssigneeIndex(AssigneesOf(items), a).value].count == AssignedTo(items, a)
  {
    if items != [] {
      var prefix := items[..|items| - 1];
      var wi := items[|items| - 1];
      var groups := AssigneesOf(prefix);
      AssigneeCountSpec(prefix, a);
      var key := AssigneeOf(wi);
      match AssigneeIndex(groups, key)
      case None =>
        var g := groups + [Record(Assignee(key, 0, []), wi)];
        assert AssigneesOf(items) == g;
        assert g[..|g| - 1] == groups;
      case Some(k) =>
        var g := groups[k := Record(groups[k], wi)];
        assert AssigneesOf(items) == g;
        KeyIndexSameKeys(groups, g, AssigneeKey, a);
    }
  }

  /** The number of items assigned to `a` with severity `sev`. */
  function AssignedWith(items: seq<WorkItem>, a: string, sev: string): nat {
    if items == [] then 0
    else
      var wi := items[|items| - 1];
      AssignedWith(items[..|items| - 1], a, sev) + (if AssigneeOf(wi) == a && SeverityOf(wi) == sev then 1 else 0)
  }

  /** The counter stored under `sev`, 0 when there is none. */
  function SevTally(sevs: seq<SevCount>, sev: string): nat {
    match SevIndex(sevs, sev)
    case None => 0
    case Some(j) => sevs[j].count
  }

  /** The counter stored under `sev` for assignee `a`, 0 when either is missing. */
  function AssigneeSevTally(groups: seq<Assignee>, a: string, sev: string): nat {
    match AssigneeIndex(groups, a)
    case None => 0
    case Some(k) => SevTally(groups[k].severities, sev)
  }

  /** Every severity counter that exists is at least one. */
  predicate PositiveCounts(sevs: seq<SevCount>) {
    forall j :: 0 <= j < |sevs| ==> sevs[j].count >= 1
  }

  ghost predicate PositiveTallies(groups: seq<Assignee>) {
    forall k :: 0 <= k < |groups| ==> PositiveCounts(groups[k].severities)
  }

  lemma BumpSeverityPositive(sevs: seq<SevCount>, s: string)
    requires PositiveCounts(sevs)
    ensures PositiveCounts(BumpSeverity(sevs, s))
  {
    match SevIndex(sevs, s)
    case None =>
      assert BumpSeverity(sevs, s) == sevs + [SevCount(s, 1)];
    case Some(k) =>
      assert BumpSeverity(sevs, s) == sevs[k := SevCount(s, sevs[k].count + 1)];
  }

  lemma BumpSeverityTally(sevs: seq<SevCount>, s: string, sev: string)
    ensures SevTally(BumpSeverity(sevs, s), sev) == SevTally(sevs, sev) + (if s == sev then 1 else 0)
  {
    var after := BumpSeverity(sevs, s);
    match SevIndex(sevs, s)
    case None =>
      assert after == sevs + [SevCount(s, 1)];
      assert after[..|after| - 1] == sevs;
    case Some(k) =>
      assert after == sevs[k := SevCount(s, sevs[k].count + 1)];
      KeyIndexSameKeys(sevs, after, SevKey, sev);
  }

  lemma AddAssignedPositive(groups: seq<Assignee>, wi: WorkItem)
    requires PositiveTallies(groups)
    ensures PositiveTallies(AddAssigned(groups, wi))
  {
    var after := AddAssigned(groups, wi);
    match AssigneeIndex(groups, AssigneeOf(wi))
    case None =>
      assert after == groups + [Record(Assignee(AssigneeOf(wi), 0, []), wi)];
      BumpSeverityPositive([], SeverityOf(wi));
      assert forall k :: 0 <= k < |groups| ==> after[k] == groups[k];
    case Some(k) =>
      assert after == groups[k := Record(groups[k], wi)];
      BumpSeverityPositive(groups[k].severities, SeverityOf(wi));
  }

  lemma AddAssignedTally(groups: seq<Assignee>, wi: WorkItem, a: string, sev: string)
    ensures AssigneeSevTally(AddAssigned(groups, wi), a, sev)
            == AssigneeSevTally(groups, a, sev) + (if AssigneeOf(wi) == a && SeverityOf(wi) == sev then 1 else 0)
  {
    var key := AssigneeOf(wi);
    var after := AddAssigned(groups, wi);
    match AssigneeIndex(groups, key)
    case None =>
      assert after == groups + [Record(Assignee(key, 0, []), wi)];
      assert after[..|after| - 1] == groups;
      BumpSeverityTally([], SeverityOf(wi), sev);
    case Some(k) =>
      assert after == groups[k := Record(groups[k], wi)];
      KeyIndexSameKeys(groups, after, AssigneeKey, a);
      BumpSeverityTally(groups[k].severities, SeverityOf(wi), sev);
  }

  lemma {:induction false} AssigneesTallies(items: seq<WorkItem>, a: string, sev: string)
    ensures PositiveTallies(AssigneesOf(items))
    ensures AssigneeSevTally(AssigneesOf(items), a, sev) == AssignedWith(items, a, sev)
  {
    if items != [] {
      AssigneesTallies(items[..|items| - 1], a, sev);
      AddAssignedPositive(AssigneesOf(items[..|items| - 1]), items[|items| - 1]);
      AddAssignedTally(AssigneesOf(items[..|items| - 1]), items[|items| - 1], a, sev);
    }
  }

  /** An assignee's group has a counter for a severity exactly when some item of that
      severity is assigned to them, and the counter is the number of those items. */
  lemma AssigneeSeverityCountSpec(items: seq<WorkItem>, a: string, sev: string)
    ensures AssigneeIndex(AssigneesOf(items), a).None? ==> AssignedWith(items, a, sev) == 0
    ensures var gs := AssigneesOf(items);
      AssigneeIndex(gs, a).Some? ==>
        var g := gs[AssigneeIndex(gs, a).value];
        && (SevIndex(g.severities, sev).None? <==> AssignedWith(items, a, sev) == 0)
        && (SevIndex(g.severities, sev).Some? ==>
              g.severities[SevIndex(g.severities, sev).value].count == AssignedWith(items, a, sev))
  {
    AssigneesTallies(items, a, sev);
  }

  datatype AssignmentRow = AssignmentRow(assignee: string, count: nat, severities: seq<SevCount>, overloaded: bool)

  const OverloadThreshold: nat := 5

  function RowOf(g: Assignee): AssignmentRow {
    AssignmentRow(g.assignee, g.count, g.severities, g.count > OverloadThreshold)
  }

  function Rows(groups: seq<Assignee>): (rows: seq<AssignmentRow>)
    ensures |rows| == |groups| && forall k :: 0 <= k < |groups| ==> rows[k] == RowOf(groups[k])
  {
    if groups == [] then [] else [RowOf(groups[0])] + Rows(groups[1..])
  }

  /** `(a, b) => b.count - a.count`. */
  function ByCountDesc(a: AssignmentRow, b: AssignmentRow): bool { a.count >= b.count }

  function RowCount(r: AssignmentRow): nat { r.count }

  /** `assignmentDistribution`. */
  function AssignmentDistribution(items: seq<WorkItem>): seq<AssignmentRow> {
    SortBy(Rows(AssigneesOf(items)), ByCountDesc)
  }

  lemma {:induction false} RowsTotal(groups: seq<Assignee>)
    ensures SumBy(Rows(groups), RowCount) == SumBy(groups, AssigneeCount)
  {
    if groups != [] {
      RowsTotal(groups[1..]);
    }
  }

  /** The distribution is by non-increasing count, its counts add up to the number of items,
      and every row's count is the sum of its severity counters, with `overloaded` exactly
      when the count exceeds five. */
  lemma AssignmentDistributionSpec(items: seq<WorkItem>)
    ensures var d := AssignmentDistribution(items);
      && Sorted(d, ByCountDesc)
      && SumBy(d, RowCount) == |items|
      && (forall r :: r in d ==> r.count == SumBy(r.severities, SevCountOf) && (r.overloaded <==> r.count > 5))
  {
    var groups := AssigneesOf(items);
    var rows := Rows(groups);
    AssigneesWellCounted(items);
    AssigneesTotal(items);
    SortBySorted(rows, ByCountDesc);
    SumBySortBy(rows, ByCountDesc, RowCount);
    RowsTotal(groups);
    forall r | r in AssignmentDistribution(items)
      ensures r.count == SumBy(r.severities, SevCountOf) && (r.overloaded <==> r.count > 5)
    {
      SortByMembers(rows, ByCountDesc, r);
      var k :| 0 <= k < |rows| && rows[k] == r;
      assert r == RowOf(groups[k]);
    }
  }

  // ---------------------------------------------------------------------------
  // The report
  // ---------------------------------------------------------------------------

  datatype BugReport = BugReport(
    totalOpenBugs: nat,
    queriedTypes: seq<string>,
    severityBreakdown: seq<SeverityEntry>,
    ageAnalysis: AgeAnalysis,
    top5Oldest: seq<TopEntry>,
    assignmentDistribution: seq<AssignmentRow>)

  datatype BugsError = QueryFailed | FetchFailed

  /** The output written when the query finds no work item. */
  function EmptyReport(types: seq<string>): BugReport {
    BugReport(0, types, [], AgeAnalysis(None, None, Buckets(0, 0, 0, 0)), [], [])
  }

  function ReportOf(types: seq<string>, items: seq<WorkItem>, now: int): BugReport {
    BugReport(|items|, types, Breakdown(items), AgeAnalysisOf(Ages(items, now)),
              Top5Oldest(items, now), AssignmentDistribution(items))
  }

  /** From the raw type list, the query's ids (`None` when it failed) and the batch fetch
      (`None` when it failed) to the output. */
  method BuildBugReport(typesRaw: string, ids: Option<seq<int>>, fetch: seq<int> -> Option<seq<WorkItem>>, now: int)
    returns (r: Result<BugReport, BugsError>)
    ensures ids.None? ==> r == Err(QueryFailed)
    ensures ids == Some([]) ==> r == Ok(EmptyReport(ParseTypes(typesRaw)))
    ensures ids.Some? && ids.value != [] && fetch(ids.value).None? ==> r == Err(FetchFailed)
    ensures ids.Some? && ids.value != [] && fetch(ids.value).Some? ==>
              r == Ok(ReportOf(ParseTypes(typesRaw), fetch(ids.value).value, now))
  {
    var types := ParseTypes(typesRaw);
    if ids.None? {
      return Err(QueryFailed);
    }
    if |ids.value| == 0 {
      return Ok(EmptyReport(types));
    }
    var fetched := fetch(ids.value);
    if fetched.None? {
      return Err(FetchFailed);
    }
    var workItems := fetched.value;
    var severityGroups := GroupBySeverity(workItems);
    var sortedSeverities := SortBy(Keys(severityGroups), SevLe);
    var severityBreakdown := BreakdownFrom(sortedSeverities, severityGroups);
    var ageDays := Ages(workItems, now);
    var buckets := CountBuckets(ageDays);
    var days := AsReals(ageDays);
    var ageAnalysis := AgeAnalysis(Mean(days), Median(days), buckets);
    var top5 := Top5Oldest(workItems, now);
    var assigneeGroups := GroupByAssignee(workItems);
    var distribution := SortBy(Rows(assigneeGroups), ByCountDesc);
    r := Ok(BugReport(|workItems|, types, severityBreakdown, ageAnalysis, top5, distribution));
  }

  /** The early exit for an empty query writes what the general computation gives for no
      items. */
  lemma EmptyReportAgrees(types: seq<string>, now: int)
    ensures ReportOf(types, [], now) == EmptyReport(types)
  {
    assert Keys(GroupsOf([])) == [];
    assert Rows(AssigneesOf([])) == [];
  }

  /** Every view of the report accounts for every work item: the breakdown counts, the
      bucket counts and the distribution counts each add up to the total, the top list
      holds min(5, total), and mean and median are null exactly when there is no item. */
  lemma ReportTotals(types: seq<string>, items: seq<WorkItem>, now: int)
    ensures var r := ReportOf(types, items, now);
      var b := r.ageAnalysis.buckets;
      && r.totalOpenBugs == |items|
      && SumBy(r.severityBreakdown, EntryCount) == r.totalOpenBugs
      && b.upTo7 + b.upTo30 + b.upTo90 + b.over90 == r.totalOpenBugs
      && SumBy(r.assignmentDistribution, RowCount) == r.totalOpenBugs
      && |r.top5Oldest| == (if r.totalOpenBugs < 5 then r.totalOpenBugs else 5)
      && (r.ageAnalysis.meanDays.None? <==> r.totalOpenBugs == 0)
      && (r.ageAnalysis.medianDays.None? <==> r.totalOpenBugs == 0)
  {
    BreakdownTotal(items);
    BucketsSpec(Ages(items, now));
    AssignmentDistributionSpec(items);
    Top5Shape(items, now);
  }
}
