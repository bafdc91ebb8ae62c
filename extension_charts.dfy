/**
 * Extension rankings, totals and the detail page text
 * (src/components/extension_charts.tsx).
 */
module ExtensionCharts {
  import opened Wrappers
  import opened Text
  import opened Sorting
  import opened Extensions
  import AuthorCharts

  // ---------------------------------------------------------------------
  // Install deep link
  // ---------------------------------------------------------------------

  const InstallPrefix: string := "raycast://extensions/"
  const InstallSuffix: string := "?source=webstore"

  /** The target of the "Install Extension" action. */
  function InstallUrl(e: Extension): string {
    InstallPrefix + e.author.handle + "/" + e.name + InstallSuffix
  }

  /**
   * Reads an install link back into author handle and extension name: the
   * text between the fixed prefix and suffix, split at its first '/'.
   */
  function ParseInstallUrl(url: string): Option<(string, string)> {
    if StartsWith(url, InstallPrefix) && EndsWith(url, InstallSuffix) && |InstallPrefix| + |InstallSuffix| <= |url| then
      var body := url[|InstallPrefix|..|url| - |InstallSuffix|];
      var k := IndexOf(body, '/');
      if k < |body| then Some((body[..k], body[k + 1..])) else None
    else None
  }

  /** The link names exactly the extension's author handle and name. */
  lemma InstallUrlRoundTrip(e: Extension)
    requires '/' !in e.author.handle
    ensures ParseInstallUrl(InstallUrl(e)) == Some((e.author.handle, e.name))
  {
    var h, n := e.author.handle, e.name;
    var url := InstallUrl(e);
    var body := h + "/" + n;
    assert url == InstallPrefix + body + InstallSuffix;
    assert url[..|InstallPrefix|] == InstallPrefix;
    assert url[|url| - |InstallSuffix|..] == InstallSuffix;
    assert url[|InstallPrefix|..|url| - |InstallSuffix|] == body;
    assert forall i :: 0 <= i < |h| ==> body[i] == h[i];
    assert body[|h|] == '/';
    assert IndexOf(body, '/') == |h|;
    assert body[..|h|] == h;
    assert body[|h| + 1..] == n;
  }

  // ---------------------------------------------------------------------
  // Rankings
  // ---------------------------------------------------------------------

  /** `sortExtensionByDownloads`: undefined stays undefined; a list is sorted in place and returned. */
  method SortExtensionByDownloads(extensions: Option<array<Extension>>) returns (r: Option<array<Extension>>)
    modifies if extensions.Some? then {extensions.value} else {}
    ensures r == extensions
    ensures r.Some? ==> multiset(r.value[..]) == old(multiset(r.value[..]))
    ensures r.Some? ==>
      forall i, j :: 0 <= i < j < r.value.Length ==> r.value[i].download_count >= r.value[j].download_count
  {
    if extensions.None? {
      return None;
    }
    var exts := extensions.value;
    SortExtensions(exts, ExtensionSortMode.TotalInstalls);
    r := extensions;
  }

  /**
   * The entries of the extension list's sort dropdown: "Total Installs",
   * "Last Day Installs", "Last Day Growth", "Last Week Installs" and
   * "Last Week Growth".
   */
  datatype ExtensionSortMode = TotalInstalls | LastDayInstalls | LastDayGrowth | LastWeekInstalls | LastWeekGrowth

  /** `sortMap`: the comparator of each dropdown entry; absent growth reads as 0. */
  function SortMap(mode: ExtensionSortMode): (Extension, Extension) -> real {
    match mode
    case TotalInstalls =>
      (a: Extension, b: Extension) => (b.download_count - a.download_count) as real
    case LastDayInstalls =>
      (a: Extension, b: Extension) => (CountOrZero(b.growth_last_day) - CountOrZero(a.growth_last_day)) as real
    case LastDayGrowth =>
      (a: Extension, b: Extension) => RatioOrZero(b.growth_last_day) - RatioOrZero(a.growth_last_day)
    case LastWeekInstalls =>
      (a: Extension, b: Extension) => (CountOrZero(b.growth_last_week) - CountOrZero(a.growth_last_week)) as real
    case LastWeekGrowth =>
      (a: Extension, b: Extension) => RatioOrZero(b.growth_last_week) - RatioOrZero(a.growth_last_week)
  }

  /** The quantity a dropdown entry ranks by: a growth field, or 0 when the record is absent. */
  function RankKey(mode: ExtensionSortMode, e: Extension): (k: real)
    ensures mode == TotalInstalls ==> k == e.download_count as real
    ensures mode == LastDayInstalls ==>
      k == if e.growth_last_day.Some? then e.growth_last_day.value.download_count as real else 0.0
    ensures mode == LastDayGrowth ==>
      k == if e.growth_last_day.Some? then e.growth_last_day.value.download_change_percentage else 0.0
    ensures mode == LastWeekInstalls ==>
      k == if e.growth_last_week.Some? then e.growth_last_week.value.download_count as real else 0.0
    ensures mode == LastWeekGrowth ==>
      k == if e.growth_last_week.Some? then e.growth_last_week.value.download_change_percentage else 0.0
  {
    match mode
    case TotalInstalls => e.download_count as real
    case LastDayInstalls => CountOrZero(e.growth_last_day) as real
    case LastDayGrowth => RatioOrZero(e.growth_last_day)
    case LastWeekInstalls => CountOrZero(e.growth_last_week) as real
    case LastWeekGrowth => RatioOrZero(e.growth_last_week)
  }

  /** Every comparator puts the larger key first. */
  lemma SortMapRanksDescending(mode: ExtensionSortMode, a: Extension, b: Extension)
    ensures SortMap(mode)(a, b) == RankKey(mode, b) - RankKey(mode, a)
  {
  }

  /** Every comparator is one `Array.prototype.sort` can use. */
  lemma SortMapIsTotalPreorder(mode: ExtensionSortMode)
    ensures IsTotalPreorder(SortMap(mode))
  {
    var cmp := SortMap(mode);
    forall x, y ensures ComparableAt(cmp, x, y) {
      SortMapRanksDescending(mode, x, y);
      SortMapRanksDescending(mode, y, x);
    }
    forall x, y, z ensures TransitiveAt(cmp, x, y, z) {
      SortMapRanksDescending(mode, x, y);
      SortMapRanksDescending(mode, y, z);
      SortMapRanksDescending(mode, x, z);
    }
  }

  /** `extensions.sort(sortMap[sortmode])`: largest key first, contents unchanged as a multiset. */
  method SortExtensions(extensions: array<Extension>, mode: ExtensionSortMode)
    modifies extensions
    ensures multiset(extensions[..]) == old(multiset(extensions[..]))
    ensures SortedBy(extensions[..], SortMap(mode))
    ensures forall i, j :: 0 <= i < j < extensions.Length ==>
      RankKey(mode, extensions[i]) >= RankKey(mode, extensions[j])
  {
    SortMapIsTotalPreorder(mode);
    SortWith(extensions, SortMap(mode));
    forall i, j | 0 <= i < j < extensions.Length
      ensures RankKey(mode, extensions[i]) >= RankKey(mode, extensions[j])
    {
      SortMapRanksDescending(mode, extensions[i], extensions[j]);
    }
  }

  // ---------------------------------------------------------------------
  // Totals
  // ---------------------------------------------------------------------

  /** `totalInstalls`: the downloads of the whole list, 0 for an undefined one. */
  function TotalInstallsOf(raw: Option<seq<Extension>>): int {
    if raw.Some? then AuthorCharts.SumBy(raw.value, AuthorCharts.Downloads) else 0
  }

  /** `installsLastDay`: the last-day growth counts of the whole list, absent as 0. */
  function InstallsLastDayOf(raw: Option<seq<Extension>>): int {
    if raw.Some? then AuthorCharts.SumBy(raw.value, AuthorCharts.GrowthCount(LastDay)) else 0
  }

  /**
   * The two headline totals agree with the per-author view: summing the
   * author records of `combineUserData` gives the same numbers.
   */
  lemma TotalsAgreeWithAuthors(xs: seq<Extension>)
    ensures TotalInstallsOf(Some(xs)) == AuthorCharts.TotalDownloads(AuthorCharts.Combined(xs))
    ensures InstallsLastDayOf(Some(xs)) == AuthorCharts.TotalGrowthCount(AuthorCharts.Combined(xs), LastDay)
  {
    AuthorCharts.CombinedPreservesTotals(xs);
  }

  /** Neither total depends on the order of the list, so sorting first or last gives the same numbers. */
  lemma {:induction false} TotalsIgnoreOrder(xs: seq<Extension>, ys: seq<Extension>, f: Extension -> int)
    requires multiset(xs) == multiset(ys)
    ensures AuthorCharts.SumBy(xs, f) == AuthorCharts.SumBy(ys, f)
    decreases |xs|
  {
    if |xs| > 0 {
      var init, last := xs[..|xs| - 1], xs[|xs| - 1];
      assert xs == init + [last];
      assert last in multiset(ys);
      var k :| 0 <= k < |ys| && ys[k] == last;
      var rest := ys[..k] + ys[k + 1..];
      assert ys == ys[..k] + [last] + ys[k + 1..];
      assert multiset(ys) == multiset(rest) + multiset{last};
      assert multiset(xs) == multiset(init) + multiset{last};
      assert forall z :: multiset(init)[z] == multiset(rest)[z] by {
        forall z ensures multiset(init)[z] == multiset(rest)[z] {
          assert multiset(xs)[z] == multiset(init)[z] + multiset{last}[z];
          assert multiset(ys)[z] == multiset(rest)[z] + multiset{last}[z];
        }
      }
      assert multiset(init) == multiset(rest);
      TotalsIgnoreOrder(init, rest, f);
      SumByRemove(ys, k, f);
    }
  }

  /** Taking out the element at `k` takes `f` of it off the sum. */
  lemma {:induction false} SumByRemove(ys: seq<Extension>, k: int, f: Extension -> int)
    requires 0 <= k < |ys|
    ensures AuthorCharts.SumBy(ys, f) == AuthorCharts.SumBy(ys[..k] + ys[k + 1..], f) + f(ys[k])
    decreases |ys|
  {
    var init, last := ys[..|ys| - 1], ys[|ys| - 1];
    if k < |ys| - 1 {
      SumByRemove(init, k, f);
      assert init[..k] + init[k + 1..] + [last] == ys[..k] + ys[k + 1..];
      AuthorCharts.SumBySnoc(init[..k] + init[k + 1..], last, f);
    } else {
      assert ys[..k] + ys[k + 1..] == init;
    }
  }

  // ---------------------------------------------------------------------
  // The list view
  // ---------------------------------------------------------------------

  /**
   * `ExtensionList`: both totals over the list as fetched, the author records
   * of `combineUserData`, then the list sorted in place by the chosen entry.
   */
  method ExtensionListView(rawExtensions: Option<array<Extension>>, mode: ExtensionSortMode)
    returns (totalInstalls: int, installsLastDay: int, usersData: Option<seq<AuthorCharts.UserData>>)
    requires rawExtensions.Some? ==>
      forall i :: 0 <= i < rawExtensions.value.Length ==> AuthorCharts.PlainKey(rawExtensions.value[i].author.handle)
    modifies if rawExtensions.Some? then {rawExtensions.value} else {}
    ensures rawExtensions.None? ==> totalInstalls == 0 && installsLastDay == 0 && usersData.None?
    ensures rawExtensions.Some? ==>
      && totalInstalls == TotalInstallsOf(Some(old(rawExtensions.value[..])))
      && installsLastDay == InstallsLastDayOf(Some(old(rawExtensions.value[..])))
      && usersData == Some(AuthorCharts.Combined(old(rawExtensions.value[..])))
      && multiset(rawExtensions.value[..]) == old(multiset(rawExtensions.value[..]))
      && forall i, j :: 0 <= i < j < rawExtensions.value.Length ==>
           RankKey(mode, rawExtensions.value[i]) >= RankKey(mode, rawExtensions.value[j])
  {
    if rawExtensions.None? {
      totalInstalls, installsLastDay := 0, 0;
      usersData := AuthorCharts.CombineUserData(None);
      return;
    }
    var a := rawExtensions.value;
    var xs := a[..];
    totalInstalls := TotalInstallsOf(Some(xs));
    installsLastDay := InstallsLastDayOf(Some(xs));
    usersData := AuthorCharts.CombineUserData(Some(xs));
    SortExtensions(a, mode);
  }

  /** `usersData?.find(...)`: the first record whose author has handle `h`. */
  function FindAuthor(users: seq<AuthorCharts.UserData>, h: string): (r: Option<AuthorCharts.UserData>)
    ensures r.Some? ==> r.value in users && r.value.author.handle == h
    ensures r.None? <==> forall i :: 0 <= i < |users| ==> users[i].author.handle != h
  {
    if |users| == 0 then None
    else if users[0].author.handle == h then Some(users[0])
    else FindAuthor(users[1..], h)
  }

  /** `find` returns the first match: the record at the first index with that handle. */
  lemma {:induction false} FindAuthorFirst(users: seq<AuthorCharts.UserData>, h: string, i: int)
    requires 0 <= i < |users| && users[i].author.handle == h
    requires forall j :: 0 <= j < i ==> users[j].author.handle != h
    ensures FindAuthor(users, h) == Some(users[i])
  {
    if i > 0 {
      FindAuthorFirst(users[1..], h, i - 1);
    }
  }

  /**
   * Every listed extension finds its author's record in `usersData`, and that
   * record is the aggregate of exactly that author's extensions.
   */
  lemma AuthorDataOfListed(xs: seq<Extension>, k: int)
    requires 0 <= k < |xs|
    ensures |AuthorCharts.OfAuthor(xs, xs[k].author.handle)| > 0
    ensures FindAuthor(AuthorCharts.Combined(xs), xs[k].author.handle)
      == Some(AuthorCharts.Aggregate(xs, xs[k].author.handle))
  {
    var h := xs[k].author.handle;
    var hs := AuthorCharts.Handles(xs);
    var us := AuthorCharts.Combined(xs);
    AuthorCharts.HandlesComplete(xs, h);
    AuthorCharts.HandlesDistinct(xs);
    var i :| 0 <= i < |hs| && hs[i] == h;
    forall j | 0 <= j < |hs|
      ensures us[j].author.handle == hs[j]
    {
      var mine := AuthorCharts.OfAuthor(xs, hs[j]);
      assert AuthorCharts.HasHandle(hs[j])(mine[0]);
    }
    FindAuthorFirst(us, h, i);
  }

  // ---------------------------------------------------------------------
  // The detail page
  // ---------------------------------------------------------------------

  /** Wraps text in a fenced code block. */
  function CodeFence(text: string): (r: string)
    ensures StartsWith(r, "```\n") && EndsWith(r, "\n```")
    ensures |r| == |text| + 8 && r[4..|r| - 4] == text
  {
    "```\n" + text + "\n```"
  }

  /**
   * The points handed to the plot: none for a missing history or one with
   * fewer than two days, otherwise day index against download count.
   */
  function DownloadCoords(e: Extension): (r: Option<seq<(int, int)>>)
    ensures r.Some? <==> e.previous_days_downloads.Some? && |e.previous_days_downloads.value| >= 2
    ensures r.Some? ==> |r.value| == |e.previous_days_downloads.value|
    ensures r.Some? ==> forall i :: 0 <= i < |r.value| ==> r.value[i] == (i, e.previous_days_downloads.value[i])
  {
    match e.previous_days_downloads
    case None => None
    case Some(v) =>
      if |v| < 2 then None else Some(seq(|v|, i requires 0 <= i < |v| => (i, v[i])))
  }

  /**
   * `getDownloadsGraph`, with the chart library as the parameter `plot`: no
   * graph without enough history, otherwise the plot of the points, fenced.
   */
  function GetDownloadsGraph(e: Extension, plot: seq<(int, int)> -> string): (r: Option<string>)
    ensures r.Some? <==> DownloadCoords(e).Some?
    ensures r.Some? ==> r.value != [] && StartsWith(r.value, "```\n") && EndsWith(r.value, "\n```")
    ensures r.Some? ==> |r.value| >= 8 && r.value[4..|r.value| - 4] == plot(DownloadCoords(e).value)
  {
    match DownloadCoords(e)
    case None => None
    case Some(coords) => Some(CodeFence(plot(coords)))
  }

  function CommandsHeading(n: nat): string {
    "## Commands (" + NatToString(n) + ")"
  }

  function CommandSection(c: Command): string {
    "### " + c.title + "\n\n" + c.description
  }

  /** The section count in the heading reads back as the number of commands. */
  lemma CommandsHeadingCount(n: nat)
    ensures exists d :: && CommandsHeading(n) == "## Commands (" + d + ")"
                        && (forall i :: 0 <= i < |d| ==> IsDigit(d[i]))
                        && DecimalValue(d) == n
  {
    DecimalValueOfNatToString(n);
  }

  /**
   * `ExtensionDetail`'s markdown: the title heading, the description, the
   * downloads graph when there is one, the command count heading and one
   * section per command in order, joined by a newline and two spaces.
   */
  method ExtensionDetailMarkdown(e: Extension, plot: seq<(int, int)> -> string) returns (parts: seq<string>, md: string)
    ensures var g := if DownloadCoords(e).Some? then 1 else 0;
      && |parts| == 3 + g + |e.commands|
      && parts[0] == "# " + e.title
      && parts[1] == e.description
      && (g == 1 ==> parts[2] == GetDownloadsGraph(e, plot).value)
      && parts[2 + g] == CommandsHeading(|e.commands|)
      && forall k :: 0 <= k < |e.commands| ==> parts[3 + g + k] == CommandSection(e.commands[k])
    ensures md == Join(parts, "\n  ")
  {
    parts := ["# " + e.title, e.description];
    var downloadGraph := GetDownloadsGraph(e, plot);
    if downloadGraph.Some? && downloadGraph.value != [] {
      parts := parts + [downloadGraph.value];
    }
    var g := |parts| - 2;
    parts := parts + [CommandsHeading(|e.commands|)];
    for k := 0 to |e.commands|
      invariant |parts| == 3 + g + k
      invariant parts[0] == "# " + e.title && parts[1] == e.description
      invariant g == 1 ==> parts[2] == downloadGraph.value
      invariant parts[2 + g] == CommandsHeading(|e.commands|)
      invariant forall j :: 0 <= j < k ==> parts[3 + g + j] == CommandSection(e.commands[j])
    {
      parts := parts + [CommandSection(e.commands[k])];
    }
    md := Join(parts, "\n  ");
  }
}
