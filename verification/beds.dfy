/** The public bed search: wards across all hospitals with at least a
    minimum number of free beds, most free beds first, optionally narrowed
    by region, district and ward type (ignoring case), with totals over all
    matches and one page of results. */
module Beds {
  import opened Base
  import opened Numbers
  import opened Lists
  import opened Pagination

  /** The embedded `hospitals` row of a ward (absent when the join finds
      none). */
  datatype HospitalInfo = HospitalInfo(id: Id, name: Option<string>, region: Option<string>, district: Option<string>)

  /** A row of `wards` as the search selects it. */
  datatype WardRow = WardRow(
    id: Id,
    name: Option<string>,
    wardType: Option<string>,
    totalBeds: Option<int>,
    availableBeds: Option<int>,
    hospitalId: Option<Id>,
    hospital: Option<HospitalInfo>)

  /** The query string of a search; every parameter is optional text. */
  datatype BedQuery = BedQuery(
    region: Option<string>,
    district: Option<string>,
    wardType: Option<string>,
    minBeds: Option<string>,
    page: Option<string>,
    limit: Option<string>)

  datatype HospitalView = HospitalView(id: Option<Id>, name: Option<string>, region: Option<string>, district: Option<string>)

  /** One entry of `results`. */
  datatype BedResult = BedResult(
    wardId: Id,
    wardName: Option<string>,
    wardType: Option<string>,
    totalBeds: Option<int>,
    availableBeds: Option<int>,
    hospital: HospitalView)

  datatype Filters = Filters(region: Option<string>, district: Option<string>, wardType: Option<string>, minBeds: int)

  datatype SearchResult = SearchResult(
    results: seq<BedResult>,
    totalWardsWithBeds: nat,
    totalAvailableBeds: int,
    filters: Filters,
    pagination: PageMeta)

  /** `parseInt(min_beds, 10) || 1`. */
  function MinBeds(param: Option<string>): (m: int)
    ensures ParseIntParam(param).None? || ParseIntParam(param) == Some(0) ==> m == 1
    ensures ParseIntParam(param).Some? && ParseIntParam(param).value != 0 ==> m == ParseIntParam(param).value
  {
    IntOr(ParseIntParam(param), 1)
  }

  /** The database side of the query: `available_beds >= minBeds` (a
      missing count never passes) ordered by `available_beds` descending. */
  function Available(w: WardRow): int {
    w.availableBeds.GetOr(0)
  }

  predicate HasBeds(w: WardRow, minBeds: int) {
    w.availableBeds.Some? && w.availableBeds.value >= minBeds
  }

  function Fetch(table: seq<WardRow>, minBeds: int): seq<WardRow> {
    SortDesc(Filter(table, (w: WardRow) => HasBeds(w, minBeds)), Available)
  }

  /** One text filter: an absent or empty query passes everything; otherwise
      the ward's value must be present and equal ignoring case. */
  predicate TextMatches(value: Option<string>, query: Option<string>) {
    !Present(query) || (value.Some? && SameIgnoringCase(value.value, query.value))
  }

  function RegionOf(w: WardRow): Option<string> {
    if w.hospital.Some? then w.hospital.value.region else None
  }

  function DistrictOf(w: WardRow): Option<string> {
    if w.hospital.Some? then w.hospital.value.district else None
  }

  /** The three filters applied one after the other, as the handler does. */
  function Narrow(fetched: seq<WardRow>, q: BedQuery): seq<WardRow> {
    var byRegion := Filter(fetched, (w: WardRow) => TextMatches(RegionOf(w), q.region));
    var byDistrict := Filter(byRegion, (w: WardRow) => TextMatches(DistrictOf(w), q.district));
    Filter(byDistrict, (w: WardRow) => TextMatches(w.wardType, q.wardType))
  }

  /** Everything a ward must satisfy to be a match, in one place. */
  predicate Wanted(w: WardRow, q: BedQuery) {
    && HasBeds(w, MinBeds(q.minBeds))
    && TextMatches(RegionOf(w), q.region)
    && TextMatches(DistrictOf(w), q.district)
    && TextMatches(w.wardType, q.wardType)
  }

  /** Every ward that matches the search, most free beds first. */
  function Matches(table: seq<WardRow>, q: BedQuery): seq<WardRow> {
    Narrow(Fetch(table, MinBeds(q.minBeds)), q)
  }

  function Project(w: WardRow): BedResult {
    BedResult(w.id, w.name, w.wardType, w.totalBeds, w.availableBeds,
      if w.hospital.Some? then
        var h := w.hospital.value;
        HospitalView(Some(h.id), h.name, h.region, h.district)
      else HospitalView(None, None, None, None))
  }

  /** The requested page of matches, projected. */
  function PageOf(m: seq<WardRow>, offset: nat, limit: nat): (rs: seq<BedResult>)
    ensures |rs| <= limit
    ensures forall i :: 0 <= i < |rs| ==> offset + i < |m| && rs[i] == Project(m[offset + i])
  {
    Map(Window(m, offset, limit), Project)
  }

  /** The response for the matches `m` and the requested page `p`. */
  function Respond(m: seq<WardRow>, p: PageRequest, filters: Filters): (r: SearchResult)
    requires p.limit >= 1
    ensures |r.results| <= p.limit
    ensures forall i :: 0 <= i < |r.results| ==> p.offset + i < |m| && r.results[i] == Project(m[p.offset + i])
    ensures r.totalWardsWithBeds == |m| && r.totalAvailableBeds == SumBy(m, Available)
    ensures r.pagination == BuildPaginationMeta(p.page, p.limit, |m|)
    ensures r.filters == filters
  {
    SearchResult(PageOf(m, p.offset, p.limit as nat), |m|, SumBy(m, Available), filters,
      BuildPaginationMeta(p.page, p.limit, |m|))
  }

  /** `searchBeds` over the `wards` table. */
  function SearchBeds(table: seq<WardRow>, q: BedQuery): (r: SearchResult)
    ensures var p := ParsePagination(q.page, q.limit);
      var m := Matches(table, q);
      && |r.results| <= p.limit
      && (forall i :: 0 <= i < |r.results| ==> p.offset + i < |m| && r.results[i] == Project(m[p.offset + i]))
    ensures r.totalWardsWithBeds == |Matches(table, q)|
    ensures r.totalAvailableBeds == SumBy(Matches(table, q), Available)
    ensures var p := ParsePagination(q.page, q.limit);
      r.pagination == BuildPaginationMeta(p.page, p.limit, |Matches(table, q)|)
    ensures r.filters == Filters(OrElse(q.region, None), OrElse(q.district, None), OrElse(q.wardType, None), MinBeds(q.minBeds))
  {
    Respond(Matches(table, q), ParsePagination(q.page, q.limit),
      Filters(OrElse(q.region, None), OrElse(q.district, None), OrElse(q.wardType, None), MinBeds(q.minBeds)))
  }

  /** The three successive filters are the single filter `Wanted` applied
      to the fetched rows: a ward is a match exactly when it is in the table
      and wanted, and the matches keep the descending order of free beds. */
  lemma MatchesAreWanted(table: seq<WardRow>, q: BedQuery)
    ensures var fetched := Fetch(table, MinBeds(q.minBeds));
      Matches(table, q) == Filter(fetched, (w: WardRow) => TextMatches(RegionOf(w), q.region)
                                                        && TextMatches(DistrictOf(w), q.district)
                                                        && TextMatches(w.wardType, q.wardType))
    ensures forall w :: w in Matches(table, q) <==> w in table && Wanted(w, q)
    ensures SortedDesc(Matches(table, q), Available)
  {
    var minBeds := MinBeds(q.minBeds);
    var fetched := Fetch(table, minBeds);
    var hasBeds := (w: WardRow) => HasBeds(w, minBeds);
    var reg := (w: WardRow) => TextMatches(RegionOf(w), q.region);
    var dis := (w: WardRow) => TextMatches(DistrictOf(w), q.district);
    var typ := (w: WardRow) => TextMatches(w.wardType, q.wardType);
    var regDis := (w: WardRow) => reg(w) && dis(w);
    var all3 := (w: WardRow) => TextMatches(RegionOf(w), q.region)
                                && TextMatches(DistrictOf(w), q.district)
                                && TextMatches(w.wardType, q.wardType);
    FilterFilter(fetched, reg, dis, regDis);
    FilterFilter(fetched, regDis, typ, all3);
    var m := Matches(table, q);
    assert m == Filter(fetched, all3);
    var pre := Filter(table, hasBeds);
    assert multiset(fetched) == multiset(pre);
    FilterMembers(fetched, all3);
    FilterMembers(table, hasBeds);
    forall w ensures w in m <==> w in table && Wanted(w, q) {
      assert w in fetched <==> w in multiset(pre);
      assert w in pre <==> w in table && hasBeds(w);
    }
    FilterKeepsSortedDesc(fetched, all3, Available);
  }

  lemma MatchesHaveBeds(table: seq<WardRow>, q: BedQuery)
    ensures var m := Matches(table, q);
      forall i :: 0 <= i < |m| ==> HasBeds(m[i], MinBeds(q.minBeds))
  {
    MatchesAreWanted(table, q);
    var m := Matches(table, q);
    forall i | 0 <= i < |m| ensures HasBeds(m[i], MinBeds(q.minBeds)) {
      assert m[i] in m;
    }
  }

  /** Every ward on the page has at least the minimum number of free beds
      the response reports. */
  lemma SearchedWardsHaveBeds(table: seq<WardRow>, q: BedQuery)
    ensures var r := SearchBeds(table, q);
      forall i :: 0 <= i < |r.results| ==>
        r.results[i].availableBeds.Some? && r.results[i].availableBeds.value >= r.filters.minBeds
  {
    MatchesHaveBeds(table, q);
  }

  /** An absent filter removes nothing. */
  lemma AbsentFiltersKeepEverything(table: seq<WardRow>, q: BedQuery)
    requires !Present(q.region) && !Present(q.district) && !Present(q.wardType)
    ensures Matches(table, q) == Fetch(table, MinBeds(q.minBeds))
  {
    var fetched := Fetch(table, MinBeds(q.minBeds));
    MatchesAreWanted(table, q);
    FilterAll(fetched, (w: WardRow) => TextMatches(RegionOf(w), q.region)
                                      && TextMatches(DistrictOf(w), q.district)
                                      && TextMatches(w.wardType, q.wardType));
  }

  /** The summary counts every match, whichever page is asked for. */
  lemma SummaryIgnoresPaging(table: seq<WardRow>, q: BedQuery, page: Option<string>, limit: Option<string>)
    ensures var a := SearchBeds(table, q);
      var b := SearchBeds(table, q.(page := page, limit := limit));
      a.totalWardsWithBeds == b.totalWardsWithBeds && a.totalAvailableBeds == b.totalAvailableBeds
  {
    assert Matches(table, q) == Matches(table, q.(page := page, limit := limit));
  }

  /** The region filter does not care about the case of either side. */
  lemma RegionFilterIgnoresCase(w: WardRow, region: string, query: string)
    requires RegionOf(w) == Some(region) && query != ""
    ensures TextMatches(RegionOf(w), Some(query)) <==> Lower(region) == Lower(query)
    ensures TextMatches(RegionOf(w), Some(query)) <==> TextMatches(RegionOf(w), Some(Lower(query)))
  {
    LowerIsIdempotent(query);
  }
}
