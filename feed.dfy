/** The data part of `loadEntries`: the three-key comparator handed to
    `data.sort`, the date headers with their Today/Yesterday labels, and the
    "No entries yet." placeholder for an empty collection. */
module Feed {
  import opened Text
  import opened Entries

  /** `x.localeCompare(y)` on date strings. */
  function LocaleCompare(x: string, y: string): int
  {
    if x == y then 0 else if Less(x, y) then -1 else 1
  }

  /** The comparator of `data.sort`: negative when `a` goes first. Dates
      descend, time slots ascend (Morning first), creation times descend. */
  function Compare(a: Entry, b: Entry): int
  {
    if a.dateStr != b.dateStr then LocaleCompare(b.dateStr, a.dateStr)
    else if a.timeOfDay != b.timeOfDay then Ordinal(a.timeOfDay) - Ordinal(b.timeOfDay)
    else b.createdAt - a.createdAt
  }

  /** What "a may stand before b" means in terms of the three keys. */
  lemma CompareMeaning(a: Entry, b: Entry)
    ensures Compare(a, b) <= 0 <==>
      || Less(b.dateStr, a.dateStr)
      || (a.dateStr == b.dateStr && Ordinal(a.timeOfDay) < Ordinal(b.timeOfDay))
      || (a.dateStr == b.dateStr && a.timeOfDay == b.timeOfDay && a.createdAt >= b.createdAt)
  {
    OrdinalInjective(a.timeOfDay, b.timeOfDay);
    LessIrreflexive(a.dateStr);
  }

  /** The comparator is antisymmetric, as `Array.prototype.sort` requires
      of a consistent comparator. */
  lemma CompareFlip(a: Entry, b: Entry)
    ensures Compare(b, a) == -Compare(a, b)
  {
    OrdinalInjective(a.timeOfDay, b.timeOfDay);
    if a.dateStr != b.dateStr {
      LessTotal(a.dateStr, b.dateStr);
      if Less(a.dateStr, b.dateStr) {
        LessAsymmetric(a.dateStr, b.dateStr);
      } else {
        LessAsymmetric(b.dateStr, a.dateStr);
      }
    }
  }

  /** ... and transitive, so the feed order is a total preorder. */
  lemma CompareTransitive(a: Entry, b: Entry, c: Entry)
    requires Compare(a, b) <= 0 && Compare(b, c) <= 0
    ensures Compare(a, c) <= 0
  {
    CompareMeaning(a, b);
    CompareMeaning(b, c);
    CompareMeaning(a, c);
    if Less(b.dateStr, a.dateStr) && Less(c.dateStr, b.dateStr) {
      LessTransitive(c.dateStr, b.dateStr, a.dateStr);
    }
    LessIrreflexive(a.dateStr);
  }

  /** Every neighbouring pair is in comparator order. */
  predicate Sorted(s: seq<Entry>)
  {
    forall i :: 0 <= i < |s| - 1 ==> Compare(s[i], s[i + 1]) <= 0
  }

  /** Places `e` before the first element it may precede. */
  function Insert(e: Entry, s: seq<Entry>): (r: seq<Entry>)
    ensures |r| == |s| + 1
    ensures multiset(r) == multiset(s) + multiset{e}
    ensures r[0] == e || (s != [] && r[0] == s[0])
  {
    if s == [] || Compare(e, s[0]) <= 0 then
      [e] + s
    else
      assert s == [s[0]] + s[1..];
      [s[0]] + Insert(e, s[1..])
  }

  lemma {:induction false} InsertSorted(e: Entry, s: seq<Entry>)
    requires Sorted(s)
    ensures Sorted(Insert(e, s))
  {
    if s != [] && Compare(e, s[0]) > 0 {
      CompareFlip(e, s[0]);
      var t := s[1..];
      assert Sorted(t) by {
        forall i | 0 <= i < |t| - 1 ensures Compare(t[i], t[i + 1]) <= 0 {
          assert t[i] == s[i + 1] && t[i + 1] == s[i + 2];
        }
      }
      InsertSorted(e, t);
      var r := Insert(e, t);
      var q := [s[0]] + r;
      assert Insert(e, s) == q;
      forall i | 0 <= i < |q| - 1 ensures Compare(q[i], q[i + 1]) <= 0 {
        if i > 0 {
          assert q[i] == r[i - 1] && q[i + 1] == r[i];
        }
      }
    }
  }

  /** The sorted copy of the collection that `loadEntries` walks. The
      engine's algorithm is not part of this model; any algorithm meeting
      this contract yields the same feed up to the order of entries that the
      comparator ties (same date, slot and creation time). */
  function SortFeed(s: seq<Entry>): (r: seq<Entry>)
    ensures |r| == |s|
    ensures multiset(r) == multiset(s)
    ensures Sorted(r)
  {
    if s == [] then []
    else
      assert s == [s[0]] + s[1..];
      var t := SortFeed(s[1..]);
      InsertSorted(s[0], t);
      Insert(s[0], t)
  }

  /** Neighbours in the sorted feed: a later date first, or the same date
      and an earlier slot, or the same date and slot and a creation no older. */
  lemma SortFeedAdjacent(data: seq<Entry>, i: nat)
    requires i + 1 < |data|
    ensures var r := SortFeed(data);
      || Less(r[i + 1].dateStr, r[i].dateStr)
      || (r[i].dateStr == r[i + 1].dateStr && Ordinal(r[i].timeOfDay) < Ordinal(r[i + 1].timeOfDay))
      || (r[i].dateStr == r[i + 1].dateStr && r[i].timeOfDay == r[i + 1].timeOfDay
          && r[i].createdAt >= r[i + 1].createdAt)
  {
    var r := SortFeed(data);
    CompareMeaning(r[i], r[i + 1]);
  }

  /** The three sort keys agree: the comparator ties the two entries. */
  predicate SameKeys(a: Entry, b: Entry)
  {
    a.dateStr == b.dateStr && a.timeOfDay == b.timeOfDay && a.createdAt == b.createdAt
  }

  /** The entries of `s` whose keys equal those of `k`, in the order of `s`. */
  function Ties(s: seq<Entry>, k: Entry): seq<Entry>
  {
    if s == [] then []
    else (if SameKeys(s[0], k) then [s[0]] else []) + Ties(s[1..], k)
  }

  lemma TiesCons(x: Entry, t: seq<Entry>, k: Entry)
    ensures Ties([x] + t, k) == (if SameKeys(x, k) then [x] else []) + Ties(t, k)
  {
    assert ([x] + t)[0] == x && ([x] + t)[1..] == t;
  }

  /** Two entries with the keys of `k` tie under the comparator. */
  lemma SameKeysTie(a: Entry, b: Entry, k: Entry)
    ensures SameKeys(a, k) && SameKeys(b, k) ==> Compare(a, b) == 0
  {
  }

  /** Inserting `e` puts it before every entry it ties with. */
  lemma {:induction false} InsertTies(e: Entry, t: seq<Entry>, k: Entry)
    ensures Ties(Insert(e, t), k) == (if SameKeys(e, k) then [e] else []) + Ties(t, k)
  {
    if t == [] || Compare(e, t[0]) <= 0 {
      TiesCons(e, t, k);
    } else {
      assert t == [t[0]] + t[1..];
      InsertTies(e, t[1..], k);
      TiesCons(t[0], Insert(e, t[1..]), k);
      TiesCons(t[0], t[1..], k);
      SameKeysTie(e, t[0], k);
    }
  }

  /** The sort is stable: entries the comparator ties keep their storage
      order, as `Array.prototype.sort` does in every engine since ES2019. */
  lemma {:induction false} SortFeedStable(s: seq<Entry>, k: Entry)
    ensures Ties(SortFeed(s), k) == Ties(s, k)
  {
    if s != [] {
      SortFeedStable(s[1..], k);
      InsertTies(s[0], SortFeed(s[1..]), k);
    }
  }

  /** Sortedness of neighbours extends to every pair. */
  lemma {:induction false} SortedPairwise(s: seq<Entry>, i: nat, j: nat)
    requires Sorted(s) && i < j < |s|
    ensures Compare(s[i], s[j]) <= 0
    decreases j - i
  {
    if i + 1 < j {
      SortedPairwise(s, i + 1, j);
      CompareTransitive(s[i], s[i + 1], s[j]);
    }
  }

  /** Entries with the same date stand together. */
  predicate DatesGrouped(s: seq<Entry>)
  {
    forall i, k, j :: 0 <= i < k < j < |s| && s[i].dateStr == s[j].dateStr ==> s[k].dateStr == s[i].dateStr
  }

  lemma SortedGroupsDates(s: seq<Entry>)
    requires Sorted(s)
    ensures DatesGrouped(s)
  {
    forall i, k, j | 0 <= i < k < j < |s| && s[i].dateStr == s[j].dateStr
      ensures s[k].dateStr == s[i].dateStr
    {
      SortedPairwise(s, i, k);
      SortedPairwise(s, k, j);
      CompareMeaning(s[i], s[k]);
      CompareMeaning(s[k], s[j]);
      if s[k].dateStr != s[i].dateStr {
        LessAsymmetric(s[k].dateStr, s[i].dateStr);
      }
    }
  }

  /** The clock readings and the locale formatter the labels depend on:
      today's and yesterday's date strings and `toLocaleDateString`. */
  datatype Calendar = Calendar(today: string, yesterday: string, longForm: string -> string)

  /** The text of a date header. */
  function Label(date: string, cal: Calendar): (r: string)
    ensures date == cal.today ==> r == "Today"
    ensures date != cal.today && date == cal.yesterday ==> r == "Yesterday"
    ensures date != cal.today && date != cal.yesterday ==> r == cal.longForm(date)
  {
    if date == cal.today then "Today"
    else if date == cal.yesterday then "Yesterday"
    else cal.longForm(date)
  }

  /** One element appended to the feed. */
  datatype Line = Header(title: string) | Item(entry: Entry)

  /** What the feed shows: a placeholder or the lines. */
  datatype View = Placeholder(message: string) | Lines(lines: seq<Line>)

  const NoEntriesMessage := "No entries yet."

  /** The lines the feed loop emits for `s`, one entry at a time: a header
      whenever the date differs from the previous entry's, then the item. */
  function Group(s: seq<Entry>, cal: Calendar): seq<Line>
    decreases |s|
  {
    if s == [] then []
    else
      var prefix := s[..|s| - 1];
      var e := s[|s| - 1];
      Group(prefix, cal) + Step(prefix, e, cal)
  }

  /** Appending an entry appends its step. */
  lemma GroupSnoc(s: seq<Entry>, e: Entry, cal: Calendar)
    ensures Group(s + [e], cal) == Group(s, cal) + Step(s, e, cal)
  {
    assert (s + [e])[..|s|] == s;
  }

  /** The lines emitted for `e` after the entries `prefix`. */
  function Step(prefix: seq<Entry>, e: Entry, cal: Calendar): seq<Line>
  {
    if prefix == [] || prefix[|prefix| - 1].dateStr != e.dateStr
    then [Header(Label(e.dateStr, cal)), Item(e)]
    else [Item(e)]
  }

  /** The whole feed for a stored collection. */
  function FeedView(data: seq<Entry>, cal: Calendar): View
  {
    var sorted := SortFeed(data);
    if |sorted| == 0 then Placeholder(NoEntriesMessage) else Lines(Group(sorted, cal))
  }

  /** The entries shown, in feed order. */
  function Items(g: seq<Line>): seq<Entry>
  {
    if g == [] then []
    else (if g[0].Item? then [g[0].entry] else []) + Items(g[1..])
  }

  function HeaderCount(g: seq<Line>): nat
  {
    if g == [] then 0
    else (if g[0].Header? then 1 else 0) + HeaderCount(g[1..])
  }

  /** The distinct dates of a collection. */
  function DatesOf(s: seq<Entry>): set<string>
  {
    set i | 0 <= i < |s| :: s[i].dateStr
  }

  lemma StepCounts(prefix: seq<Entry>, e: Entry, cal: Calendar)
    ensures Items(Step(prefix, e, cal)) == [e]
    ensures HeaderCount(Step(prefix, e, cal)) ==
      if prefix == [] || prefix[|prefix| - 1].dateStr != e.dateStr then 1 else 0
  {
    var h, i := Header(Label(e.dateStr, cal)), Item(e);
    assert [i][1..] == [];
    assert Items([i]) == [e] && HeaderCount([i]) == 0;
    assert [h, i][1..] == [i];
    assert Items([h, i]) == [e] && HeaderCount([h, i]) == 1;
  }

  lemma {:induction false} ItemsConcat(a: seq<Line>, b: seq<Line>)
    ensures Items(a + b) == Items(a) + Items(b)
    ensures HeaderCount(a + b) == HeaderCount(a) + HeaderCount(b)
  {
    if a == [] {
      assert a + b == b;
    } else {
      assert (a + b)[0] == a[0] && (a + b)[1..] == a[1..] + b;
      ItemsConcat(a[1..], b);
    }
  }

  /** The feed lists every entry exactly once, in the order given. */
  lemma {:induction false} GroupItems(s: seq<Entry>, cal: Calendar)
    ensures Items(Group(s, cal)) == s
    decreases |s|
  {
    if s != [] {
      var prefix, e := s[..|s| - 1], s[|s| - 1];
      GroupItems(prefix, cal);
      ItemsConcat(Group(prefix, cal), Step(prefix, e, cal));
      StepCounts(prefix, e, cal);
      assert s == prefix + [e];
    }
  }

  /** When equal dates stand together, there is exactly one header per
      distinct date. */
  lemma {:induction false} GroupHeaders(s: seq<Entry>, cal: Calendar)
    requires DatesGrouped(s)
    ensures HeaderCount(Group(s, cal)) == |DatesOf(s)|
    decreases |s|
  {
    if s != [] {
      var prefix, e := s[..|s| - 1], s[|s| - 1];
      DatesOfSnoc(s);
      GroupHeaders(prefix, cal);
      GroupHeaderStep(s, cal);
      if prefix == [] || prefix[|prefix| - 1].dateStr != e.dateStr {
        NewDate(s);
      } else {
        assert prefix[|prefix| - 1].dateStr in DatesOf(prefix);
      }
      DatesOfStep(s);
    }
  }

  /** The last entry adds one header exactly when its date differs from
      its predecessor's. */
  lemma GroupHeaderStep(s: seq<Entry>, cal: Calendar)
    requires s != []
    ensures var prefix := s[..|s| - 1];
      HeaderCount(Group(s, cal)) == HeaderCount(Group(prefix, cal)) +
        if prefix == [] || prefix[|prefix| - 1].dateStr != s[|s| - 1].dateStr then 1 else 0
  {
    var prefix, e := s[..|s| - 1], s[|s| - 1];
    ItemsConcat(Group(prefix, cal), Step(prefix, e, cal));
    StepCounts(prefix, e, cal);
  }

  /** The last entry of a walk adds one distinct date exactly when its date
      is new to the entries before it. */
  lemma DatesOfStep(s: seq<Entry>)
    requires s != []
    ensures var prefix := s[..|s| - 1];
      |DatesOf(s)| == |DatesOf(prefix)| + if s[|s| - 1].dateStr in DatesOf(prefix) then 0 else 1
  {
    var prefix, d := s[..|s| - 1], s[|s| - 1].dateStr;
    DatesOfSnoc(s);
    if d in DatesOf(prefix) {
      assert DatesOf(prefix) + {d} == DatesOf(prefix);
    }
  }

  /** In a date-grouped collection, a last entry whose date differs from its
      predecessor's brings a date not seen before. */
  lemma NewDate(s: seq<Entry>)
    requires DatesGrouped(s) && s != []
    requires |s| == 1 || s[|s| - 2].dateStr != s[|s| - 1].dateStr
    ensures s[|s| - 1].dateStr !in DatesOf(s[..|s| - 1])
  {
  }

  lemma DatesOfSnoc(s: seq<Entry>)
    requires s != []
    ensures DatesOf(s) == DatesOf(s[..|s| - 1]) + {s[|s| - 1].dateStr}
    ensures DatesGrouped(s) ==> DatesGrouped(s[..|s| - 1])
  {
    var p := s[..|s| - 1];
    assert forall i :: 0 <= i < |p| ==> p[i] == s[i];
  }

  /** Two neighbouring lines: a header stands right before an item and
      carries that item's date label; two neighbouring items share a date. */
  predicate PairOk(x: Line, y: Line, cal: Calendar)
  {
    && (x.Header? ==> y.Item? && x.title == Label(y.entry.dateStr, cal))
    && (x.Item? && y.Item? ==> x.entry.dateStr == y.entry.dateStr)
  }

  /** A header between two items separates two different dates. */
  predicate TripleOk(x: Line, y: Line, z: Line)
  {
    x.Item? && y.Header? && z.Item? ==> x.entry.dateStr != z.entry.dateStr
  }

  /** The shape of a grouped feed: it opens with a header and ends with an
      item, every pair of neighbours is as `PairOk` says and every header
      between two items separates two dates. */
  predicate WellGrouped(g: seq<Line>, cal: Calendar)
  {
    && (g != [] ==> g[0].Header? && g[|g| - 1].Item?)
    && (forall k :: 0 <= k < |g| - 1 ==> PairOk(g[k], g[k + 1], cal))
    && (forall k :: 0 <= k < |g| - 2 ==> TripleOk(g[k], g[k + 1], g[k + 2]))
  }

  lemma AppendLine(g: seq<Line>, x: Line, cal: Calendar)
    requires forall k :: 0 <= k < |g| - 1 ==> PairOk(g[k], g[k + 1], cal)
    requires forall k :: 0 <= k < |g| - 2 ==> TripleOk(g[k], g[k + 1], g[k + 2])
    requires g != [] ==> PairOk(g[|g| - 1], x, cal)
    requires |g| >= 2 ==> TripleOk(g[|g| - 2], g[|g| - 1], x)
    ensures var h := g + [x];
      && (forall k :: 0 <= k < |h| - 1 ==> PairOk(h[k], h[k + 1], cal))
      && (forall k :: 0 <= k < |h| - 2 ==> TripleOk(h[k], h[k + 1], h[k + 2]))
  {
    var h := g + [x];
    forall k | 0 <= k < |h| - 1 ensures PairOk(h[k], h[k + 1], cal) {
      if k < |g| - 1 { assert h[k] == g[k] && h[k + 1] == g[k + 1]; }
    }
    forall k | 0 <= k < |h| - 2 ensures TripleOk(h[k], h[k + 1], h[k + 2]) {
      if k < |g| - 2 { assert h[k] == g[k] && h[k + 1] == g[k + 1] && h[k + 2] == g[k + 2]; }
    }
  }

  lemma {:induction false} GroupWellGrouped(s: seq<Entry>, cal: Calendar)
    ensures WellGrouped(Group(s, cal), cal)
    ensures s != [] ==> Group(s, cal) != [] && Group(s, cal)[|Group(s, cal)| - 1] == Item(s[|s| - 1])
    decreases |s|
  {
    if s != [] {
      var prefix, e := s[..|s| - 1], s[|s| - 1];
      GroupWellGrouped(prefix, cal);
      var g0 := Group(prefix, cal);
      var h := Header(Label(e.dateStr, cal));
      if prefix == [] || prefix[|prefix| - 1].dateStr != e.dateStr {
        AppendLine(g0, h, cal);
        AppendLine(g0 + [h], Item(e), cal);
        assert Group(s, cal) == (g0 + [h]) + [Item(e)];
      } else {
        AppendLine(g0, Item(e), cal);
        assert Group(s, cal) == g0 + [Item(e)];
      }
    }
  }

  /** Two collections with the same records have the same dates. */
  lemma SameDates(s: seq<Entry>, t: seq<Entry>)
    requires multiset(s) == multiset(t)
    ensures DatesOf(s) == DatesOf(t)
  {
    forall d | d in DatesOf(s) ensures d in DatesOf(t) {
      var i :| 0 <= i < |s| && s[i].dateStr == d;
      assert s[i] in multiset(t);
      var j :| 0 <= j < |t| && t[j] == s[i];
    }
    forall d | d in DatesOf(t) ensures d in DatesOf(s) {
      var j :| 0 <= j < |t| && t[j].dateStr == d;
      assert t[j] in multiset(s);
      var i :| 0 <= i < |s| && s[i] == t[j];
    }
  }

  /** An empty collection, and only an empty one, shows the placeholder. */
  lemma FeedViewEmpty(data: seq<Entry>, cal: Calendar)
    ensures FeedView(data, cal).Placeholder? <==> data == []
    ensures data == [] ==> FeedView(data, cal) == Placeholder("No entries yet.")
  {
  }

  /** A non-empty collection shows every stored record once, sorted by the
      comparator, grouped under one correctly labelled header per date. */
  lemma FeedViewLines(data: seq<Entry>, cal: Calendar)
    requires data != []
    ensures FeedView(data, cal).Lines?
    ensures var g := FeedView(data, cal).lines;
      && multiset(Items(g)) == multiset(data)
      && Sorted(Items(g))
      && WellGrouped(g, cal)
      && HeaderCount(g) == |DatesOf(data)|
  {
    var sorted := SortFeed(data);
    GroupItems(sorted, cal);
    GroupWellGrouped(sorted, cal);
    SortedGroupsDates(sorted);
    GroupHeaders(sorted, cal);
    SameDates(sorted, data);
  }

  /** Dates first, then slots: with A at Night and B in the Morning of one
      day and C on a later day (2025-11-20, 2025-11-20 and 2025-11-21, say:
      `ConsecutiveDays`), the feed shows C, B, A whatever their creation times. */
  lemma FeedOrderExample(a: Entry, b: Entry, c: Entry)
    requires a.dateStr == b.dateStr && Less(a.dateStr, c.dateStr)
    requires a.timeOfDay == Night && b.timeOfDay == Morning
    ensures SortFeed([a, b, c]) == [c, b, a]
  {
    LessAsymmetric(a.dateStr, c.dateStr);
    assert Compare(b, c) > 0 && Compare(a, c) > 0 && Compare(a, b) > 0;
    assert [b, c][1..] == [c] && [a, b, c][1..] == [b, c];
    assert SortFeed([c]) == [c];
    InsertPast(b, c, []);
    assert SortFeed([b, c]) == [c, b];
    InsertPast(a, b, []);
    InsertPast(a, c, [b]);
  }

  lemma InsertPast(e: Entry, x: Entry, t: seq<Entry>)
    requires Compare(e, x) > 0
    ensures Insert(e, [x] + t) == [x] + Insert(e, t)
  {
    assert ([x] + t)[0] == x && ([x] + t)[1..] == t;
  }

  /** Within one date and slot, the later creation comes first. */
  lemma TieBreakExample(x: Entry, y: Entry)
    requires x.dateStr == y.dateStr && x.timeOfDay == y.timeOfDay && x.createdAt < y.createdAt
    ensures SortFeed([x, y]) == [y, x]
  {
    assert [x, y][1..] == [y];
    assert SortFeed([y]) == [y];
    InsertPast(x, y, []);
  }
}
