/**
 * The "new and updated" view (src/components/extensions_updates.tsx): the
 * extensions created, and those updated, at or after a point in time. The
 * point in time is a parameter: the source derives it from the clock and
 * local calendar arithmetic.
 */
module ExtensionsUpdates {
  import opened Wrappers
  import opened Seqs
  import opened Extensions
  import ExtensionCharts
  import ObjectPrototype

  /** The largest magnitude, in milliseconds, a `Date` can hold (TimeClip). */
  const MaxTime: int := 8_640_000_000_000_000

  /**
   * `unixTimestampToDate(seconds)` read as a number: the milliseconds, or
   * nothing when they lie outside the range of `Date` (an invalid date).
   */
  function DateOf(seconds: int): (d: Option<int>)
    ensures d.Some? <==> -MaxTime <= seconds * 1000 <= MaxTime
    ensures d.Some? ==> d.value == seconds * 1000
  {
    var ms := seconds * 1000;
    if -MaxTime <= ms <= MaxTime then Some(ms) else None
  }

  /** `date >= since`: an invalid date compares false. */
  predicate AtOrAfter(d: Option<int>, since: int) {
    d.Some? && d.value >= since
  }

  function CreatedSince(since: int): Extension -> bool {
    (e: Extension) => AtOrAfter(DateOf(e.created_at), since)
  }

  function UpdatedSince(since: int): Extension -> bool {
    (e: Extension) => AtOrAfter(DateOf(e.updated_at), since)
  }

  /** The two lists the view shows. */
  datatype Updates = Updates(newExts: Option<seq<Extension>>, updatedExts: Option<seq<Extension>>)

  /**
   * `filterByDays` with its threshold `since` in milliseconds: both lists are
   * undefined for an undefined input; otherwise each keeps, in input order,
   * the extensions whose creation (resp. update) time is at or after `since`.
   */
  function FilterByDays(extensions: Option<seq<Extension>>, since: int): (r: Updates)
    ensures r.newExts.None? <==> extensions.None?
    ensures r.updatedExts.None? <==> extensions.None?
    ensures extensions.Some? ==> forall i :: 0 <= i < |r.newExts.value| ==>
      -MaxTime <= r.newExts.value[i].created_at * 1000 <= MaxTime && r.newExts.value[i].created_at * 1000 >= since
    ensures extensions.Some? ==> forall i :: 0 <= i < |r.updatedExts.value| ==>
      -MaxTime <= r.updatedExts.value[i].updated_at * 1000 <= MaxTime && r.updatedExts.value[i].updated_at * 1000 >= since
  {
    if extensions.None? then Updates(None, None)
    else
      var xs := extensions.value;
      var newExts := Filter(xs, CreatedSince(since));
      var updatedExts := Filter(xs, UpdatedSince(since));
      assert forall i :: 0 <= i < |newExts| ==> CreatedSince(since)(newExts[i]);
      assert forall i :: 0 <= i < |updatedExts| ==> UpdatedSince(since)(updatedExts[i]);
      Updates(Some(newExts), Some(updatedExts))
  }

  /**
   * Nothing is lost: an extension with a valid creation (update) time at or
   * after `since` is in the new (updated) list, and only such are; the two
   * tests are independent, so an extension can be in both.
   */
  lemma FilterByDaysMembership(xs: seq<Extension>, since: int, e: Extension)
    ensures e in FilterByDays(Some(xs), since).newExts.value <==>
      e in xs && since <= e.created_at * 1000 <= MaxTime && -MaxTime <= e.created_at * 1000
    ensures e in FilterByDays(Some(xs), since).updatedExts.value <==>
      e in xs && since <= e.updated_at * 1000 <= MaxTime && -MaxTime <= e.updated_at * 1000
  {
    FilterMembership(xs, CreatedSince(since), e);
    FilterMembership(xs, UpdatedSince(since), e);
  }

  /**
   * An earlier threshold keeps more: the later threshold's list is exactly
   * the earlier one's list filtered again, so a sub-list of it.
   */
  lemma FilterByDaysMonotone(xs: seq<Extension>, earlier: int, later: int)
    requires earlier <= later
    ensures FilterByDays(Some(xs), later).newExts.value
      == Filter(FilterByDays(Some(xs), earlier).newExts.value, CreatedSince(later))
    ensures FilterByDays(Some(xs), later).updatedExts.value
      == Filter(FilterByDays(Some(xs), earlier).updatedExts.value, UpdatedSince(later))
  {
    FilterOfFilter(xs, CreatedSince(later), CreatedSince(earlier));
    FilterOfFilter(xs, UpdatedSince(later), UpdatedSince(earlier));
  }

  /** The day counts of the `filterMap` entries; `today` and any other key have none. */
  function DaysOf(mode: string): (d: Option<nat>)
    ensures d.Some? <==> mode in ["1_day", "2_days", "3_days", "7_days"]
    ensures mode == "1_day" ==> d == Some(1)
    ensures mode == "2_days" ==> d == Some(2)
    ensures mode == "3_days" ==> d == Some(3)
    ensures mode == "7_days" ==> d == Some(7)
  {
    if mode == "1_day" then Some(1)
    else if mode == "2_days" then Some(2)
    else if mode == "3_days" then Some(3)
    else if mode == "7_days" then Some(7)
    else None
  }

  /**
   * The inherited names for which `filterMap[mode](exts)` returns without
   * throwing. The call has `this` = `filterMap`, and what comes back (a
   * string, a boolean, `filterMap` itself, or an object made from `exts`)
   * has no `newExts` or `updatedExts`, so both lists are undefined. Of the
   * other inherited names, `__proto__` is no function,
   * `__defineGetter__`/`__defineSetter__` throw for want of a function
   * argument, and `__lookupGetter__`/`__lookupSetter__` return undefined,
   * which cannot be destructured.
   */
  const InertModes: set<string> := ObjectPrototype.InheritedNames -
    {"__proto__", "__defineGetter__", "__defineSetter__", "__lookupGetter__", "__lookupSetter__"}

  /**
   * `filterMap[mode](exts)` destructured into its two lists. `since(days)` is
   * the clock's reading `days` days back, in milliseconds, and `today` is
   * `filterToday`, which reads the clock and the local time zone. A key that
   * `filterMap` neither declares nor inherits is undefined, and calling it
   * throws.
   */
  function FilterMap(mode: string, exts: Option<seq<Extension>>, since: nat -> int,
                     today: Option<seq<Extension>> -> Updates): (r: Completion<Updates>)
    ensures r.Normal? <==> mode == "today" || DaysOf(mode).Some? || mode in InertModes
    ensures mode == "today" ==> r == Normal(today(exts))
    ensures DaysOf(mode).Some? ==> r == Normal(FilterByDays(exts, since(DaysOf(mode).value)))
    ensures mode in InertModes ==> r == Normal(Updates(None, None))
  {
    if mode == "today" then Normal(today(exts))
    else
      match DaysOf(mode)
      case Some(days) => Normal(FilterByDays(exts, since(days)))
      case None => if mode in InertModes then Normal(Updates(None, None)) else Throw
  }

  /**
   * With a clock that reaches further back for more days, the 7-day lists
   * contain the 3-day lists, which contain the 2-day and then the 1-day lists.
   */
  lemma FilterMapWidens(xs: seq<Extension>, since: nat -> int, today: Option<seq<Extension>> -> Updates,
                        narrow: string, wide: string, e: Extension)
    requires forall d1: nat, d2: nat :: d1 <= d2 ==> since(d2) <= since(d1)
    requires DaysOf(narrow).Some? && DaysOf(wide).Some? && DaysOf(narrow).value <= DaysOf(wide).value
    ensures e in FilterMap(narrow, Some(xs), since, today).value.newExts.value ==>
      e in FilterMap(wide, Some(xs), since, today).value.newExts.value
    ensures e in FilterMap(narrow, Some(xs), since, today).value.updatedExts.value ==>
      e in FilterMap(wide, Some(xs), since, today).value.updatedExts.value
  {
    var n, w := DaysOf(narrow).value, DaysOf(wide).value;
    assert since(w) <= since(n);
    FilterByDaysMembership(xs, since(n), e);
    FilterByDaysMembership(xs, since(w), e);
  }

  /**
   * `ExtensionUpdatesToday` (lines 58-60): the list is first sorted in place by
   * downloads, whatever the mode, so both day-count lists come out
   * most-downloaded first.
   */
  method UpdatesView(extensions: Option<array<Extension>>, mode: string, since: nat -> int,
                     today: Option<seq<Extension>> -> Updates)
    returns (r: Completion<Updates>)
    modifies if extensions.Some? then {extensions.value} else {}
    ensures r.Normal? <==> mode == "today" || DaysOf(mode).Some? || mode in InertModes
    ensures extensions.Some? ==> multiset(extensions.value[..]) == old(multiset(extensions.value[..]))
    ensures extensions.Some? ==> forall i, j :: 0 <= i < j < extensions.value.Length ==>
      extensions.value[i].download_count >= extensions.value[j].download_count
    ensures r == FilterMap(mode, if extensions.Some? then Some(extensions.value[..]) else None, since, today)
    ensures DaysOf(mode).Some? && extensions.Some? ==>
      && (forall i, j :: 0 <= i < j < |r.value.newExts.value| ==>
            r.value.newExts.value[i].download_count >= r.value.newExts.value[j].download_count)
      && (forall i, j :: 0 <= i < j < |r.value.updatedExts.value| ==>
            r.value.updatedExts.value[i].download_count >= r.value.updatedExts.value[j].download_count)
  {
    var exts := ExtensionCharts.SortExtensionByDownloads(extensions);
    var xs := if exts.Some? then Some(exts.value[..]) else None;
    r := FilterMap(mode, xs, since, today);
    if DaysOf(mode).Some? && xs.Some? {
      var before := (a: Extension, b: Extension) => a.download_count >= b.download_count;
      FilterKeepsOrder(xs.value, CreatedSince(since(DaysOf(mode).value)), before);
      FilterKeepsOrder(xs.value, UpdatedSince(since(DaysOf(mode).value)), before);
    }
  }
}
