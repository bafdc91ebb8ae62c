/**
 * Per-author aggregation and ranking (src/components/author_charts.tsx).
 *
 * `CombineUserData` walks the listing once, keeping a dictionary keyed by
 * author handle and the order in which handles were first inserted (the
 * order `Object.keys` reports). The functions `Handles`, `OfAuthor` and
 * `Aggregate` say, of the whole input at once, what that walk produces.
 */
module AuthorCharts {
  import opened Wrappers
  import opened Text
  import opened Seqs
  import opened Sorting
  import opened Extensions
  import ObjectPrototype

  /** The per-author record. */
  datatype UserData = UserData(
    author: User,
    download_count: int,
    growth_last_day: Growth,
    growth_last_week: Growth,
    extensions: seq<Extension>)

  // ---------------------------------------------------------------------
  // Handles that a plain object literal treats as ordinary keys
  // ---------------------------------------------------------------------

  /** A canonical array index ("0", "17", ... below 2^32 - 1), which `Object.keys` lists first. */
  predicate IsArrayIndex(h: string) {
    && |h| > 0
    && (forall i :: 0 <= i < |h| ==> IsDigit(h[i]))
    && (|h| == 1 || h[0] != '0')
    && DecimalValue(h) < 0xFFFF_FFFF
  }

  /**
   * A handle for which `h in result` means "inserted before" and
   * `Object.keys` keeps insertion order.
   */
  predicate PlainKey(h: string) {
    h !in ObjectPrototype.InheritedNames && !IsArrayIndex(h)
  }

  // ---------------------------------------------------------------------
  // What the walk computes, stated over the whole input
  // ---------------------------------------------------------------------

  function HasHandle(h: string): Extension -> bool {
    (e: Extension) => e.author.handle == h
  }

  /** The extensions of author `h`, in input order. */
  function OfAuthor(xs: seq<Extension>, h: string): seq<Extension> {
    Filter(xs, HasHandle(h))
  }

  /** The distinct handles of `xs`, in order of first occurrence. */
  function Handles(xs: seq<Extension>): (hs: seq<string>)
    ensures forall i :: 0 <= i < |hs| ==> |OfAuthor(xs, hs[i])| > 0
    decreases |xs|
  {
    if |xs| == 0 then []
    else
      var init, last := xs[..|xs| - 1], xs[|xs| - 1];
      var hs := Handles(init);
      if last.author.handle in hs then hs else hs + [last.author.handle]
  }

  function Downloads(e: Extension): int {
    e.download_count
  }

  /** `e.growth_last_*?.download_count || 0` */
  function GrowthCount(w: Window): Extension -> int {
    (e: Extension) => CountOrZero(GrowthIn(e, w))
  }

  /** `e.growth_last_*?.download_change_percentage || 1` */
  function GrowthRatio(w: Window): Extension -> real {
    (e: Extension) => RatioOrOne(GrowthIn(e, w))
  }

  /** The sum of `f` over `xs`. */
  function SumBy(xs: seq<Extension>, f: Extension -> int): int
    decreases |xs|
  {
    if |xs| == 0 then 0 else SumBy(xs[..|xs| - 1], f) + f(xs[|xs| - 1])
  }

  /** The product of `f` over `xs`, 1 for the empty list. */
  function ProductBy(xs: seq<Extension>, f: Extension -> real): real
    decreases |xs|
  {
    if |xs| == 0 then 1.0 else ProductBy(xs[..|xs| - 1], f) * f(xs[|xs| - 1])
  }

  /**
   * The record of author `h`: the first such extension's author object,
   * summed downloads and growth counts, multiplied growth ratios, and the
   * author's extensions in input order.
   */
  function Aggregate(xs: seq<Extension>, h: string): UserData
    requires |OfAuthor(xs, h)| > 0
  {
    var mine := OfAuthor(xs, h);
    UserData(
      mine[0].author,
      SumBy(mine, Downloads),
      Growth(SumBy(mine, GrowthCount(LastDay)), ProductBy(mine, GrowthRatio(LastDay))),
      Growth(SumBy(mine, GrowthCount(LastWeek)), ProductBy(mine, GrowthRatio(LastWeek))),
      mine)
  }

  /** One record per distinct handle, in order of first occurrence. */
  function Combined(xs: seq<Extension>): seq<UserData> {
    var hs := Handles(xs);
    seq(|hs|, i requires 0 <= i < |hs| => Aggregate(xs, hs[i]))
  }

  // ---------------------------------------------------------------------
  // combineUserData
  // ---------------------------------------------------------------------

  /**
   * `combineUserData`: undefined exactly for an undefined list; otherwise one
   * record per handle as `Combined` describes.
   */
  method CombineUserData(extensions: Option<seq<Extension>>) returns (r: Option<seq<UserData>>)
    requires extensions.Some? ==>
      forall i :: 0 <= i < |extensions.value| ==> PlainKey(extensions.value[i].author.handle)
    ensures r.None? <==> extensions.None?
    ensures r.Some? ==> r.value == Combined(extensions.value)
  {
    if extensions.None? {
      return None;
    }
    var xs := extensions.value;
    var result: map<string, UserData> := map[];
    var keys: seq<string> := [];
    for i := 0 to |xs|
      invariant Tracks(result, keys, xs[..i])
    {
      var e := xs[i];
      var h := e.author.handle;
      TracksInsert(result, keys, xs[..i], e);
      PrefixSnoc(xs, i);
      if h !in result {
        keys := keys + [h];
      }
      result := Insert(result, e);
    }
    assert xs[..|xs|] == xs;
    r := Some(seq(|keys|, j requires 0 <= j < |keys| => result[keys[j]]));
  }

  lemma PrefixSnoc<T>(xs: seq<T>, i: int)
    requires 0 <= i < |xs|
    ensures xs[..i + 1] == xs[..i] + [xs[i]]
  {
  }

  /**
   * The loop invariant of `CombineUserData`: after the prefix `seen`, the
   * dictionary holds exactly the handles of `seen`, inserted in order of first
   * occurrence, each with the record `Aggregate` gives for `seen`.
   */
  ghost predicate Tracks(result: map<string, UserData>, keys: seq<string>, seen: seq<Extension>) {
    KeysTrack(result, keys, seen) && RecordsTrack(result, seen)
  }

  /** The keys of the dictionary are the handles of `seen`, in order of first occurrence. */
  ghost predicate KeysTrack(result: map<string, UserData>, keys: seq<string>, seen: seq<Extension>) {
    && keys == Handles(seen)
    && (forall h :: h in result <==> h in keys)
  }

  /** Each record in the dictionary is the one `Aggregate` gives for `seen`. */
  ghost predicate RecordsTrack(result: map<string, UserData>, seen: seq<Extension>) {
    forall h :: h in result ==> |OfAuthor(seen, h)| > 0 && result[h] == Aggregate(seen, h)
  }

  // ---------------------------------------------------------------------
  // One step of the walk
  // ---------------------------------------------------------------------

  lemma {:induction false} OfAuthorSnoc(init: seq<Extension>, e: Extension, g: string)
    ensures OfAuthor(init + [e], g) == OfAuthor(init, g) + if e.author.handle == g then [e] else []
  {
    assert (init + [e])[..|init|] == init;
  }

  lemma {:induction false} HandlesSnoc(init: seq<Extension>, e: Extension)
    ensures Handles(init + [e]) ==
      if e.author.handle in Handles(init) then Handles(init) else Handles(init) + [e.author.handle]
  {
    assert (init + [e])[..|init|] == init;
  }

  lemma {:induction false} SumBySnoc(ys: seq<Extension>, e: Extension, f: Extension -> int)
    ensures SumBy(ys + [e], f) == SumBy(ys, f) + f(e)
  {
    assert (ys + [e])[..|ys|] == ys;
  }

  lemma {:induction false} ProductBySnoc(ys: seq<Extension>, e: Extension, f: Extension -> real)
    ensures ProductBy(ys + [e], f) == ProductBy(ys, f) * f(e)
  {
    assert (ys + [e])[..|ys|] == ys;
  }

  /** The record the walk creates for the first extension of a handle (author_charts.tsx:38-50). */
  function Started(e: Extension): UserData {
    UserData(
      e.author,
      e.download_count,
      Growth(CountOrZero(e.growth_last_day), RatioOrOne(e.growth_last_day)),
      Growth(CountOrZero(e.growth_last_week), RatioOrOne(e.growth_last_week)),
      [e])
  }

  /**
   * The record the walk makes of `u` when a further extension `e` of its
   * author arrives: `+=` on the counts, `*=` on the ratios, `push` on the
   * list (author_charts.tsx:31-36).
   */
  function Added(u: UserData, e: Extension): UserData {
    u.(
      download_count := u.download_count + e.download_count,
      growth_last_day := Growth(
        u.growth_last_day.download_count + CountOrZero(e.growth_last_day),
        u.growth_last_day.download_change_percentage * RatioOrOne(e.growth_last_day)),
      growth_last_week := Growth(
        u.growth_last_week.download_count + CountOrZero(e.growth_last_week),
        u.growth_last_week.download_change_percentage * RatioOrOne(e.growth_last_week)),
      extensions := u.extensions + [e])
  }

  /**
   * The body of the `for` loop of `combineUserData` (author_charts.tsx:30-50):
   * a known handle has the extension added into its record, a new handle gets
   * a fresh one.
   */
  function Insert(result: map<string, UserData>, e: Extension): map<string, UserData> {
    var h := e.author.handle;
    if h in result then result[h := Added(result[h], e)] else result[h := Started(e)]
  }

  /** Appending `e` leaves the record of every other author alone. */
  lemma {:induction false} AggregateSnocOther(init: seq<Extension>, e: Extension, g: string)
    requires g != e.author.handle && |OfAuthor(init, g)| > 0
    ensures |OfAuthor(init + [e], g)| > 0 && Aggregate(init + [e], g) == Aggregate(init, g)
  {
    OfAuthorSnoc(init, e, g);
    assert OfAuthor(init + [e], g) == OfAuthor(init, g);
  }

  /** Appending the first extension of a handle starts its record. */
  lemma {:induction false} AggregateSnocNew(init: seq<Extension>, e: Extension)
    requires |OfAuthor(init, e.author.handle)| == 0
    ensures |OfAuthor(init + [e], e.author.handle)| > 0
    ensures Aggregate(init + [e], e.author.handle) == Started(e)
  {
    var h := e.author.handle;
    OfAuthorSnoc(init, e, h);
    assert OfAuthor(init + [e], h) == [e];
    assert SumBy([e], Downloads) == e.download_count by {
      SumBySnoc([], e, Downloads);
    }
    SumBySnoc([], e, GrowthCount(LastDay));
    SumBySnoc([], e, GrowthCount(LastWeek));
    ProductBySnoc([], e, GrowthRatio(LastDay));
    ProductBySnoc([], e, GrowthRatio(LastWeek));
  }

  /** Appending `e` to an author's extensions adds `e` into one window's growth record. */
  lemma {:induction false} GrowthSnoc(mine: seq<Extension>, e: Extension, w: Window)
    ensures Growth(SumBy(mine + [e], GrowthCount(w)), ProductBy(mine + [e], GrowthRatio(w)))
      == Growth(SumBy(mine, GrowthCount(w)) + CountOrZero(GrowthIn(e, w)),
                ProductBy(mine, GrowthRatio(w)) * RatioOrOne(GrowthIn(e, w)))
  {
    SumBySnoc(mine, e, GrowthCount(w));
    ProductBySnoc(mine, e, GrowthRatio(w));
  }

  /** Appending a further extension of a known handle adds it into the record. */
  lemma {:induction false} AggregateSnocKnown(init: seq<Extension>, e: Extension)
    requires |OfAuthor(init, e.author.handle)| > 0
    ensures |OfAuthor(init + [e], e.author.handle)| > 0
    ensures Aggregate(init + [e], e.author.handle) == Added(Aggregate(init, e.author.handle), e)
  {
    var h := e.author.handle;
    var mine := OfAuthor(init, h);
    var more := mine + [e];
    OfAuthorSnoc(init, e, h);
    assert OfAuthor(init + [e], h) == more;
    assert more[0] == mine[0];
    SumBySnoc(mine, e, Downloads);
    GrowthSnoc(mine, e, LastDay);
    GrowthSnoc(mine, e, LastWeek);
    assert Aggregate(init + [e], h) == UserData(
      mine[0].author,
      SumBy(more, Downloads),
      Growth(SumBy(more, GrowthCount(LastDay)), ProductBy(more, GrowthRatio(LastDay))),
      Growth(SumBy(more, GrowthCount(LastWeek)), ProductBy(more, GrowthRatio(LastWeek))),
      more);
  }

  /** `Insert` keeps the loop invariant of `CombineUserData`. */
  lemma {:induction false} TracksInsert(result: map<string, UserData>, keys: seq<string>, seen: seq<Extension>, e: Extension)
    requires Tracks(result, keys, seen)
    ensures Tracks(
      Insert(result, e),
      if e.author.handle in result then keys else keys + [e.author.handle],
      seen + [e])
  {
    InsertKeys(result, keys, seen, e);
    InsertRecords(result, keys, seen, e);
  }

  /** After `Insert` every record is the one `Aggregate` gives for the longer prefix. */
  lemma {:induction false} InsertRecords(result: map<string, UserData>, keys: seq<string>, seen: seq<Extension>, e: Extension)
    requires Tracks(result, keys, seen)
    ensures RecordsTrack(Insert(result, e), seen + [e])
  {
    forall g | g in Insert(result, e)
      ensures |OfAuthor(seen + [e], g)| > 0 && Insert(result, e)[g] == Aggregate(seen + [e], g)
    {
      InsertRecord(result, keys, seen, e, g);
    }
  }

  /** After `Insert` the dictionary's keys are the handles of the longer prefix, in order. */
  lemma {:induction false} InsertKeys(result: map<string, UserData>, keys: seq<string>, seen: seq<Extension>, e: Extension)
    requires KeysTrack(result, keys, seen)
    ensures KeysTrack(Insert(result, e), if e.author.handle in result then keys else keys + [e.author.handle], seen + [e])
  {
    HandlesSnoc(seen, e);
  }

  /** The record of one handle after `Insert` is the one `Aggregate` gives. */
  lemma {:induction false} InsertRecord(result: map<string, UserData>, keys: seq<string>, seen: seq<Extension>, e: Extension, g: string)
    requires Tracks(result, keys, seen)
    requires g in Insert(result, e)
    ensures |OfAuthor(seen + [e], g)| > 0 && Insert(result, e)[g] == Aggregate(seen + [e], g)
  {
    var h := e.author.handle;
    if g != h {
      AggregateSnocOther(seen, e, g);
      assert Insert(result, e)[g] == result[g];
    } else {
      if h !in result {
        OfAuthorEmpty(seen, h);
        AggregateSnocNew(seen, e);
      } else {
        AggregateSnocKnown(seen, e);
      }
    }
  }

  // ---------------------------------------------------------------------
  // Properties of the handle order
  // ---------------------------------------------------------------------

  /** A handle is listed exactly when some extension has it. */
  lemma {:induction false} HandlesComplete(xs: seq<Extension>, h: string)
    ensures h in Handles(xs) <==> exists i :: 0 <= i < |xs| && xs[i].author.handle == h
    decreases |xs|
  {
    if |xs| > 0 {
      var init, last := xs[..|xs| - 1], xs[|xs| - 1];
      HandlesComplete(init, h);
      if h in Handles(init) {
        var i :| 0 <= i < |init| && init[i].author.handle == h;
        assert xs[i] == init[i];
      }
      if exists i :: 0 <= i < |xs| && xs[i].author.handle == h {
        var i :| 0 <= i < |xs| && xs[i].author.handle == h;
        if i < |init| {
          assert init[i] == xs[i];
        }
      }
    }
  }

  /** No handle is listed twice. */
  lemma {:induction false} HandlesDistinct(xs: seq<Extension>)
    ensures Distinct(Handles(xs))
    decreases |xs|
  {
    if |xs| > 0 {
      HandlesDistinct(xs[..|xs| - 1]);
    }
  }

  /** An author who does not occur has no extensions. */
  lemma {:induction false} OfAuthorEmpty(xs: seq<Extension>, h: string)
    requires h !in Handles(xs)
    ensures OfAuthor(xs, h) == []
    decreases |xs|
  {
    if |xs| > 0 {
      var init, last := xs[..|xs| - 1], xs[|xs| - 1];
      assert h !in Handles(init);
      OfAuthorEmpty(init, h);
    }
  }

  /**
   * Handles are listed in the order their first extensions appear: if `hs[j]`
   * occurs at position `k`, then the earlier-listed `hs[i]` occurs before `k`.
   */
  lemma {:induction false} HandlesFirstOccurrenceOrder(xs: seq<Extension>, i: int, j: int, k: int)
    requires 0 <= i < j < |Handles(xs)|
    requires 0 <= k < |xs| && xs[k].author.handle == Handles(xs)[j]
    ensures exists m :: 0 <= m < k && xs[m].author.handle == Handles(xs)[i]
    decreases |xs|
  {
    var init, last := xs[..|xs| - 1], xs[|xs| - 1];
    var hs, his := Handles(xs), Handles(init);
    assert i < |his|;
    HandlesComplete(init, hs[i]);
    var m :| 0 <= m < |init| && init[m].author.handle == hs[i];
    if k == |xs| - 1 {
      assert xs[m] == init[m];
    } else if j < |his| {
      assert init[k] == xs[k];
      HandlesFirstOccurrenceOrder(init, i, j, k);
      var m' :| 0 <= m' < k && init[m'].author.handle == hs[i];
      assert xs[m'] == init[m'];
    } else {
      // hs[j] is the handle of `last`, new at the end, so it occurs nowhere in `init`
      assert init[k] == xs[k];
      HandlesComplete(init, hs[j]);
      assert false;
    }
  }

  /** The author object of a record is that of the first extension with its handle. */
  lemma OfAuthorStartsAtFirst(xs: seq<Extension>, h: string, k: int)
    requires 0 <= k < |xs| && xs[k].author.handle == h
    requires forall m :: 0 <= m < k ==> xs[m].author.handle != h
    ensures |OfAuthor(xs, h)| > 0 && OfAuthor(xs, h)[0] == xs[k]
  {
    var before, rest := xs[..k], xs[k + 1..];
    assert xs == before + [xs[k]] + rest;
    FilterAppend(before + [xs[k]], rest, HasHandle(h));
    FilterAppend(before, [xs[k]], HasHandle(h));
    assert Filter(before, HasHandle(h)) == [] by {
      if Filter(before, HasHandle(h)) != [] {
        var x := Filter(before, HasHandle(h))[0];
        FilterMembership(before, HasHandle(h), x);
      }
    }
    assert [xs[k]][..0] == [];
  }

  /** The records of `Combined`: handle, author, totals and extensions. */
  lemma CombinedRecord(xs: seq<Extension>, i: int, k: int)
    requires 0 <= i < |Handles(xs)|
    requires 0 <= k < |xs| && xs[k].author.handle == Handles(xs)[i]
    requires forall m :: 0 <= m < k ==> xs[m].author.handle != Handles(xs)[i]
    ensures |Combined(xs)| == |Handles(xs)|
    ensures Combined(xs)[i].author == xs[k].author
    ensures Combined(xs)[i].extensions == OfAuthor(xs, Handles(xs)[i])
    ensures Combined(xs)[i].download_count == SumBy(OfAuthor(xs, Handles(xs)[i]), Downloads)
  {
    OfAuthorStartsAtFirst(xs, Handles(xs)[i], k);
  }

  // ---------------------------------------------------------------------
  // The groups partition the input
  // ---------------------------------------------------------------------

  /** The sum of `f` over the groups of the handles `hs`, group by group. */
  function GroupSum(xs: seq<Extension>, hs: seq<string>, f: Extension -> int): int
    decreases |hs|
  {
    if |hs| == 0 then 0 else GroupSum(xs, hs[..|hs| - 1], f) + SumBy(OfAuthor(xs, hs[|hs| - 1]), f)
  }

  lemma {:induction false} GroupSumSnoc(init: seq<Extension>, e: Extension, hs: seq<string>, f: Extension -> int)
    requires Distinct(hs)
    ensures GroupSum(init + [e], hs, f) == GroupSum(init, hs, f) + if e.author.handle in hs then f(e) else 0
    decreases |hs|
  {
    if |hs| > 0 {
      var front, g := hs[..|hs| - 1], hs[|hs| - 1];
      GroupSumSnoc(init, e, front, f);
      OfAuthorSnoc(init, e, g);
      SumBySnoc(OfAuthor(init, g), e, f);
      var h := e.author.handle;
      assert hs == front + [g];
      assert h in hs <==> h in front || h == g;
      if h == g {
        assert h !in front;
        assert GroupSum(init + [e], hs, f) == GroupSum(init, front, f) + SumBy(OfAuthor(init, g), f) + f(e);
      } else {
        assert OfAuthor(init + [e], g) == OfAuthor(init, g);
      }
    }
  }

  /** Summing group by group gives the sum over the whole input. */
  lemma {:induction false} GroupSumIsTotal(xs: seq<Extension>, f: Extension -> int)
    ensures GroupSum(xs, Handles(xs), f) == SumBy(xs, f)
    decreases |xs|
  {
    if |xs| > 0 {
      var init, e := xs[..|xs| - 1], xs[|xs| - 1];
      var hs, h := Handles(init), e.author.handle;
      assert xs == init + [e];
      GroupSumIsTotal(init, f);
      HandlesDistinct(init);
      HandlesSnoc(init, e);
      SumBySnoc(init, e, f);
      GroupSumSnoc(init, e, hs, f);
      if h !in hs {
        OfAuthorEmpty(init, h);
        OfAuthorSnoc(init, e, h);
        assert OfAuthor(xs, h) == [e];
        SumBySnoc([], e, f);
        var more := hs + [h];
        assert more[..|hs|] == hs && more[|hs|] == h;
        assert GroupSum(xs, more, f) == GroupSum(xs, hs, f) + SumBy([e], f);
      } else {
        assert Handles(xs) == hs;
      }
    }
  }

  /** The sum over a list of records of `f` over each record's extensions. */
  function RecordSum(us: seq<UserData>, f: Extension -> int): int
    decreases |us|
  {
    if |us| == 0 then 0 else RecordSum(us[..|us| - 1], f) + SumBy(us[|us| - 1].extensions, f)
  }

  lemma {:induction false} RecordSumOfGroups(xs: seq<Extension>, hs: seq<string>, f: Extension -> int)
    requires forall i :: 0 <= i < |hs| ==> |OfAuthor(xs, hs[i])| > 0
    ensures RecordSum(seq(|hs|, i requires 0 <= i < |hs| => Aggregate(xs, hs[i])), f) == GroupSum(xs, hs, f)
    decreases |hs|
  {
    var us := seq(|hs|, i requires 0 <= i < |hs| => Aggregate(xs, hs[i]));
    if |hs| > 0 {
      var front := hs[..|hs| - 1];
      RecordSumOfGroups(xs, front, f);
      assert us[..|us| - 1] == seq(|front|, i requires 0 <= i < |front| => Aggregate(xs, front[i]));
    }
  }

  /**
   * The records' extension lists partition the input: summing any per-extension
   * quantity record by record gives its sum over the input.
   */
  lemma CombinedPartitions(xs: seq<Extension>, f: Extension -> int)
    ensures RecordSum(Combined(xs), f) == SumBy(xs, f)
  {
    RecordSumOfGroups(xs, Handles(xs), f);
    GroupSumIsTotal(xs, f);
  }

  /** The sum of the records' own `download_count` fields. */
  function TotalDownloads(us: seq<UserData>): int
    decreases |us|
  {
    if |us| == 0 then 0 else TotalDownloads(us[..|us| - 1]) + us[|us| - 1].download_count
  }

  /** The sum of the records' own growth counts for window `w`. */
  function TotalGrowthCount(us: seq<UserData>, w: Window): int
    decreases |us|
  {
    if |us| == 0 then 0
    else
      var u := us[|us| - 1];
      TotalGrowthCount(us[..|us| - 1], w) +
        match w
        case LastDay => u.growth_last_day.download_count
        case LastWeek => u.growth_last_week.download_count
  }

  lemma {:induction false} TotalsOfGroups(xs: seq<Extension>, us: seq<UserData>)
    requires forall i :: 0 <= i < |us| ==> |OfAuthor(xs, us[i].author.handle)| > 0 && us[i] == Aggregate(xs, us[i].author.handle)
    ensures TotalDownloads(us) == RecordSum(us, Downloads)
    ensures TotalGrowthCount(us, LastDay) == RecordSum(us, GrowthCount(LastDay))
    ensures TotalGrowthCount(us, LastWeek) == RecordSum(us, GrowthCount(LastWeek))
    decreases |us|
  {
    if |us| > 0 {
      TotalsOfGroups(xs, us[..|us| - 1]);
    }
  }

  /**
   * Aggregation loses no installs: the authors' download counts add up to the
   * listing's, and so do their last-day and last-week growth counts.
   */
  lemma CombinedPreservesTotals(xs: seq<Extension>)
    ensures TotalDownloads(Combined(xs)) == SumBy(xs, Downloads)
    ensures TotalGrowthCount(Combined(xs), LastDay) == SumBy(xs, GrowthCount(LastDay))
    ensures TotalGrowthCount(Combined(xs), LastWeek) == SumBy(xs, GrowthCount(LastWeek))
  {
    var us := Combined(xs);
    forall i | 0 <= i < |us|
      ensures |OfAuthor(xs, us[i].author.handle)| > 0 && us[i] == Aggregate(xs, us[i].author.handle)
    {
      var h := Handles(xs)[i];
      assert us[i] == Aggregate(xs, h);
      assert Filter(xs, HasHandle(h))[0].author.handle == h;
    }
    TotalsOfGroups(xs, us);
    CombinedPartitions(xs, Downloads);
    CombinedPartitions(xs, GrowthCount(LastDay));
    CombinedPartitions(xs, GrowthCount(LastWeek));
  }

  /**
   * An author none of whose extensions has a non-zero ratio for window `w`
   * gets the neutral ratio 1.
   */
  lemma {:induction false} RatioWithoutDataIsOne(mine: seq<Extension>, w: Window)
    requires forall i :: 0 <= i < |mine| ==>
      GrowthIn(mine[i], w).None? || GrowthIn(mine[i], w).value.download_change_percentage == 0.0
    ensures ProductBy(mine, GrowthRatio(w)) == 1.0
    decreases |mine|
  {
    if |mine| > 0 {
      RatioWithoutDataIsOne(mine[..|mine| - 1], w);
    }
  }

  // ---------------------------------------------------------------------
  // Ranking authors
  // ---------------------------------------------------------------------

  /**
   * The entries of the author list's sort dropdown: "Total Installs",
   * "Last Day Installs", "Last Day Growth", "Last Week Installs" and
   * "Last Week Growth".
   */
  datatype AuthorSortMode = TotalInstalls | LastDayInstalls | LastDayGrowth | LastWeekInstalls | LastWeekGrowth

  /** `sortMap`: the comparator of each dropdown entry. */
  function SortMap(mode: AuthorSortMode): (UserData, UserData) -> real {
    match mode
    case TotalInstalls =>
      (a: UserData, b: UserData) => (b.download_count - a.download_count) as real
    case LastDayInstalls =>
      (a: UserData, b: UserData) => (b.growth_last_day.download_count - a.growth_last_day.download_count) as real
    case LastDayGrowth =>
      (a: UserData, b: UserData) =>
        b.growth_last_day.download_change_percentage - a.growth_last_day.download_change_percentage
    case LastWeekInstalls =>
      (a: UserData, b: UserData) => (b.growth_last_week.download_count - a.growth_last_week.download_count) as real
    case LastWeekGrowth =>
      (a: UserData, b: UserData) =>
        b.growth_last_week.download_change_percentage - a.growth_last_week.download_change_percentage
  }

  /** The field a dropdown entry ranks by. */
  function RankKey(mode: AuthorSortMode, u: UserData): real {
    match mode
    case TotalInstalls => u.download_count as real
    case LastDayInstalls => u.growth_last_day.download_count as real
    case LastDayGrowth => u.growth_last_day.download_change_percentage
    case LastWeekInstalls => u.growth_last_week.download_count as real
    case LastWeekGrowth => u.growth_last_week.download_change_percentage
  }

  /** Every comparator puts the larger key first. */
  lemma SortMapRanksDescending(mode: AuthorSortMode, a: UserData, b: UserData)
    ensures SortMap(mode)(a, b) == RankKey(mode, b) - RankKey(mode, a)
  {
  }

  /** Every comparator is one `Array.prototype.sort` can use. */
  lemma SortMapIsTotalPreorder(mode: AuthorSortMode)
    ensures IsTotalPreorder(SortMap(mode))
  {
    var cmp := SortMap(mode);
    forall x, y ensures ComparableAt(cmp, x, y) {
      SortMapRanksDescending(mode, x, y);
      SortMapRanksDescending(mode, y, x);
    }
    forall x, y, z ensures TransitiveAt(cmp, x, y, z) {
      SortMapRanksDescending(mode, x, y);
      SortMapRanksDescending(mode, y, z);
      SortMapRanksDescending(mode, x, z);
    }
  }

  /** `usersRaw?.sort(sortMap[sortmode])` on a defined list. */
  method SortUsers(users: array<UserData>, mode: AuthorSortMode)
    modifies users
    ensures multiset(users[..]) == old(multiset(users[..]))
    ensures SortedBy(users[..], SortMap(mode))
    ensures forall i, j :: 0 <= i < j < users.Length ==> RankKey(mode, users[i]) >= RankKey(mode, users[j])
  {
    SortMapIsTotalPreorder(mode);
    SortWith(users, SortMap(mode));
    forall i, j | 0 <= i < j < users.Length
      ensures RankKey(mode, users[i]) >= RankKey(mode, users[j])
    {
      SortMapRanksDescending(mode, users[i], users[j]);
    }
  }

  /**
   * The list `AuthorChartsPerDownload` shows: the records of
   * `combineUserData`, ranked largest first by the chosen field.
   */
  method RankAuthors(extensions: Option<seq<Extension>>, mode: AuthorSortMode) returns (users: Option<seq<UserData>>)
    requires extensions.Some? ==>
      forall i :: 0 <= i < |extensions.value| ==> PlainKey(extensions.value[i].author.handle)
    ensures users.None? <==> extensions.None?
    ensures users.Some? ==> multiset(users.value) == multiset(Combined(extensions.value))
    ensures users.Some? ==>
      forall i, j :: 0 <= i < j < |users.value| ==> RankKey(mode, users.value[i]) >= RankKey(mode, users.value[j])
  {
    var usersRaw := CombineUserData(extensions);
    if usersRaw.None? {
      return None;
    }
    var records := usersRaw.value;
    var a := new UserData[|records|](i requires 0 <= i < |records| => records[i]);
    assert a[..] == records;
    SortUsers(a, mode);
    users := Some(a[..]);
  }
}
