/**
 The swapping page's browse logic: the store query built from the selected
 filters and sort option, the client-side search over a fetched page, the
 append-or-replace of the item list with its `hasMore` flag, the load-more
 guard, the points colour bands and the affordability gate. The query is
 built, not run: a fetch's outcome (the page of documents, or none when it
 fails) is a parameter.
 */
module Browse {
  import opened Options
  import opened Lists
  import opened Text
  import Wallet

  /** Documents requested per page. */
  const PageSize: nat := 12

  /** The select value meaning "no filter". */
  const AllOption: string := "all"

  datatype Direction = Asc | Desc

  /** One constraint of the store query. */
  datatype Clause =
    | Where(field: string, value: string)
    | OrderBy(field: string, dir: Direction)
    | StartAfter(cursor: string)
    | Limit(count: nat)

  /** The page's selections. */
  datatype Filters = Filters(
    category: string,
    size: string,
    condition: string,
    sortBy: string,
    searchTerm: string)

  /** A listing document as the page reads it; `id` doubles as the pagination cursor. */
  datatype Listing = Listing(
    id: string,
    title: string,
    brand: string,
    description: string,
    pointsValue: int)

  datatype BrowseState = BrowseState(
    items: seq<Listing>,
    lastDoc: Option<string>,
    hasMore: bool,
    loading: bool)

  const InitialState: BrowseState := BrowseState([], None, true, true)

  // ---------------------------------------------------------------------------
  // Query

  function OptionalWhere(field: string, selected: string): seq<Clause>
  {
    if selected != AllOption then [Where(field, selected)] else []
  }

  /** The equality constraints: status first, then category, size and condition when selected. */
  function WhereClauses(f: Filters): (r: seq<Clause>)
    ensures |r| >= 1 && r[0] == Where("status", "available")
    ensures forall i :: 0 <= i < |r| ==> r[i].Where?
  {
    [Where("status", "available")]
      + OptionalWhere("category", f.category)
      + OptionalWhere("size", f.size)
      + OptionalWhere("condition", f.condition)
  }

  /** The ordering for a sort option; an unknown option adds none. */
  function SortClause(sortBy: string): (r: Option<Clause>)
    ensures r.Some? <==> sortBy in {"newest", "oldest", "points_low", "points_high"}
    ensures r.Some? ==> r.value.OrderBy?
    ensures r.Some? ==> (r.value.field == "createdAt" <==> sortBy in {"newest", "oldest"})
    ensures r.Some? ==> (r.value.field == "pointsValue" <==> sortBy in {"points_low", "points_high"})
    ensures r.Some? ==> (r.value.dir == Desc <==> sortBy in {"newest", "points_high"})
  {
    if sortBy == "newest" then Some(OrderBy("createdAt", Desc))
    else if sortBy == "oldest" then Some(OrderBy("createdAt", Asc))
    else if sortBy == "points_low" then Some(OrderBy("pointsValue", Asc))
    else if sortBy == "points_high" then Some(OrderBy("pointsValue", Desc))
    else None
  }

  function OptionToSeq<T>(o: Option<T>): seq<T>
  {
    if o.Some? then [o.value] else []
  }

  /** Everything after the equality constraints: the ordering, the cursor and the page limit. */
  function QueryTail(sortBy: string, isLoadMore: bool, lastDoc: Option<string>): (t: seq<Clause>)
    ensures |t| >= 1 && t[|t| - 1] == Limit(PageSize)
    ensures forall i :: 0 <= i < |t| ==> !t[i].Where?
    ensures (exists i :: 0 <= i < |t| && t[i].StartAfter?) <==> isLoadMore && lastDoc.Some?
    ensures isLoadMore && lastDoc.Some? ==> t[|t| - 2] == StartAfter(lastDoc.value)
    ensures SortClause(sortBy).Some? ==> t[0] == SortClause(sortBy).value
    ensures forall c :: c in t && c.OrderBy? ==> SortClause(sortBy) == Some(c)
    ensures |t| == |OptionToSeq(SortClause(sortBy))| + (if isLoadMore && lastDoc.Some? then 1 else 0) + 1
  {
    var o := OptionToSeq(SortClause(sortBy));
    var pg := if isLoadMore && lastDoc.Some? then [StartAfter(lastDoc.value)] else [];
    var t := o + pg + [Limit(PageSize)];
    assert forall i :: 0 <= i < |o| ==> t[i] == o[i] && t[i].OrderBy?;
    assert |pg| > 0 ==> t[|o|] == pg[0];
    assert forall i :: 0 <= i < |t| && t[i].StartAfter? ==> i == |o| && |pg| > 0;
    assert forall c :: c in t ==> c in o || c in pg || c == Limit(PageSize);
    t
  }

  lemma CursorAfterWheres(w: seq<Clause>, t: seq<Clause>)
    requires forall i :: 0 <= i < |w| ==> w[i].Where?
    requires |t| >= 1
    ensures (exists i :: 0 <= i < |w + t| && (w + t)[i].StartAfter?) <==> (exists j :: 0 <= j < |t| && t[j].StartAfter?)
    ensures |t| >= 2 ==> (w + t)[|w + t| - 2] == t[|t| - 2]
    ensures (w + t)[|w + t| - 1] == t[|t| - 1]
  {
    var q := w + t;
    if exists i :: 0 <= i < |q| && q[i].StartAfter? {
      var i :| 0 <= i < |q| && q[i].StartAfter?;
      assert i >= |w| && q[i] == t[i - |w|];
    }
    if exists j :: 0 <= j < |t| && t[j].StartAfter? {
      var j :| 0 <= j < |t| && t[j].StartAfter?;
      assert q[|w| + j] == t[j];
    }
  }

  /** The query `fetchItems(isLoadMore)` sends. */
  function BuildQuery(f: Filters, isLoadMore: bool, lastDoc: Option<string>): (q: seq<Clause>)
    ensures |q| >= 2 && q[0] == Where("status", "available") && q[|q| - 1] == Limit(PageSize)
    ensures (exists i :: 0 <= i < |q| && q[i].StartAfter?) <==> isLoadMore && lastDoc.Some?
    ensures isLoadMore && lastDoc.Some? ==> q[|q| - 2] == StartAfter(lastDoc.value)
    ensures SortClause(f.sortBy).Some? ==> |q| > |WhereClauses(f)| && q[|WhereClauses(f)|] == SortClause(f.sortBy).value
    ensures forall c :: c in q && c.OrderBy? ==> SortClause(f.sortBy) == Some(c)
    ensures |WhereClauses(f)| < |q| && q[..|WhereClauses(f)|] == WhereClauses(f)
    ensures forall i :: |WhereClauses(f)| <= i < |q| ==> !q[i].Where?
    ensures |q| == |WhereClauses(f)| + |OptionToSeq(SortClause(f.sortBy))| + (if isLoadMore && lastDoc.Some? then 1 else 0) + 1
  {
    var w := WhereClauses(f);
    var t := QueryTail(f.sortBy, isLoadMore, lastDoc);
    CursorAfterWheres(w, t);
    assert (w + t)[..|w|] == w;
    assert forall i :: |w| <= i < |w + t| ==> (w + t)[i] == t[i - |w|];
    assert forall c :: c in w + t ==> c in w || c in t;
    w + t
  }

  /** The value a query constrains `field` to, or "all" when it leaves the field free. */
  function SelectedValue(q: seq<Clause>, field: string): string
  {
    if |q| == 0 then AllOption
    else if q[0].Where? && q[0].field == field then q[0].value
    else SelectedValue(q[1..], field)
  }

  lemma {:induction false} SelectedValueAppend(a: seq<Clause>, b: seq<Clause>, field: string)
    requires forall i :: 0 <= i < |a| ==> !(a[i].Where? && a[i].field == field)
    ensures SelectedValue(a + b, field) == SelectedValue(b, field)
    decreases |a|
  {
    if |a| > 0 {
      assert (a + b)[1..] == a[1..] + b;
      SelectedValueAppend(a[1..], b, field);
    } else {
      assert a + b == b;
    }
  }

  predicate FreeOf(q: seq<Clause>, field: string)
  {
    forall i :: 0 <= i < |q| ==> !(q[i].Where? && q[i].field == field)
  }

  /** A selection framed by clauses on other fields is read back unchanged. */
  lemma {:induction false} RecoverBetween(pre: seq<Clause>, field: string, v: string, post: seq<Clause>)
    requires FreeOf(pre, field) && FreeOf(post, field)
    ensures SelectedValue(pre + (OptionalWhere(field, v) + post), field) == v
  {
    var mid := OptionalWhere(field, v);
    SelectedValueAppend(pre, mid + post, field);
    if v == AllOption {
      assert mid + post == post;
      SelectedValueAppend(post, [], field);
      assert post + [] == post;
    } else {
      assert (mid + post)[0] == Where(field, v);
    }
  }

  /** Reading the built query back recovers each selection. */
  lemma {:induction false} QueryRecoversSelections(f: Filters, isLoadMore: bool, lastDoc: Option<string>)
    ensures var q := BuildQuery(f, isLoadMore, lastDoc);
      && SelectedValue(q, "status") == "available"
      && SelectedValue(q, "category") == f.category
      && SelectedValue(q, "size") == f.size
      && SelectedValue(q, "condition") == f.condition
  {
    var t := QueryTail(f.sortBy, isLoadMore, lastDoc);
    assert BuildQuery(f, isLoadMore, lastDoc) == WhereClauses(f) + t;
    CategoryRecovered(f, t);
    SizeRecovered(f, t);
    ConditionRecovered(f, t);
  }

  lemma {:induction false} CategoryRecovered(f: Filters, t: seq<Clause>)
    requires forall i :: 0 <= i < |t| ==> !t[i].Where?
    ensures SelectedValue(WhereClauses(f) + t, "category") == f.category
  {
    var pre := [Where("status", "available")];
    var rest := OptionalWhere("size", f.size) + OptionalWhere("condition", f.condition) + t;
    assert WhereClauses(f) + t == pre + (OptionalWhere("category", f.category) + rest);
    RecoverBetween(pre, "category", f.category, rest);
  }

  lemma {:induction false} SizeRecovered(f: Filters, t: seq<Clause>)
    requires forall i :: 0 <= i < |t| ==> !t[i].Where?
    ensures SelectedValue(WhereClauses(f) + t, "size") == f.size
  {
    var pre := [Where("status", "available")] + OptionalWhere("category", f.category);
    var rest := OptionalWhere("condition", f.condition) + t;
    assert WhereClauses(f) + t == pre + (OptionalWhere("size", f.size) + rest);
    RecoverBetween(pre, "size", f.size, rest);
  }

  lemma {:induction false} ConditionRecovered(f: Filters, t: seq<Clause>)
    requires forall i :: 0 <= i < |t| ==> !t[i].Where?
    ensures SelectedValue(WhereClauses(f) + t, "condition") == f.condition
  {
    var pre := [Where("status", "available")] + OptionalWhere("category", f.category) + OptionalWhere("size", f.size);
    assert WhereClauses(f) + t == pre + (OptionalWhere("condition", f.condition) + t);
    RecoverBetween(pre, "condition", f.condition, t);
  }

  /** The constraints appear in the fixed order status, category, size, condition, each at most once. */
  lemma WhereOrder(f: Filters)
    ensures var fields := seq(|WhereClauses(f)|, i requires 0 <= i < |WhereClauses(f)| => WhereClauses(f)[i].field);
      IsSubsequence(fields, ["status", "category", "size", "condition"])
      && |fields| == 1 + (if f.category != AllOption then 1 else 0)
                       + (if f.size != AllOption then 1 else 0)
                       + (if f.condition != AllOption then 1 else 0)
  {
    var w := WhereClauses(f);
    var fields := seq(|w|, i requires 0 <= i < |w| => w[i].field);
    var empty: seq<string> := [];
    var tail3 := (if f.condition != AllOption then ["condition"] else []) + empty;
    var tail2 := (if f.size != AllOption then ["size"] else []) + tail3;
    var tail1 := (if f.category != AllOption then ["category"] else []) + tail2;
    assert fields == ["status"] + tail1;
    ConsOptional(f.condition != AllOption, "condition", empty, empty);
    ConsOptional(f.size != AllOption, "size", tail3, ["condition"] + empty);
    ConsOptional(f.category != AllOption, "category", tail2, ["size"] + (["condition"] + empty));
    ConsOptional(true, "status", tail1, ["category"] + (["size"] + (["condition"] + empty)));
    assert ["status"] + (["category"] + (["size"] + (["condition"] + empty))) == ["status", "category", "size", "condition"];
  }

  /** An optional head keeps a subsequence a subsequence of the list with that head. */
  lemma {:induction false} ConsOptional(keep: bool, x: string, a: seq<string>, b: seq<string>)
    requires IsSubsequence(a, b)
    ensures IsSubsequence((if keep then [x] else []) + a, [x] + b)
  {
    var xb := [x] + b;
    assert xb[0] == x && xb[1..] == b;
    if keep {
      var xa := [x] + a;
      assert xa[0] == x && xa[1..] == a;
    } else {
      assert [] + a == a;
    }
  }

  // ---------------------------------------------------------------------------
  // Search and pagination

  /**
   The client-side search: an empty term keeps everything, otherwise title,
   brand or description must contain it. The empty-term test is redundant,
   since every string contains the empty string.
   */
  function MatchesSearch(item: Listing, term: string): (r: bool)
    ensures r <==>
      Contains(Lower(item.title), Lower(term)) ||
      Contains(Lower(item.brand), Lower(term)) ||
      Contains(Lower(item.description), Lower(term))
  {
    ContainsEmpty(Lower(item.title));
    term == "" ||
    Contains(Lower(item.title), Lower(term)) ||
    Contains(Lower(item.brand), Lower(term)) ||
    Contains(Lower(item.description), Lower(term))
  }

  /** `docs.filter(...)` with the search test: the page's documents that match the term, in page order. */
  function SearchFilter(docs: seq<Listing>, term: string): (r: seq<Listing>)
    ensures forall x :: x in r <==> x in docs && MatchesSearch(x, term)
    ensures IsSubsequence(r, docs)
    ensures |r| == CountWhere(docs, (x: Listing) => MatchesSearch(x, term))
  {
    FilterIsSubsequence(docs, (x: Listing) => MatchesSearch(x, term));
    FilterLength(docs, (x: Listing) => MatchesSearch(x, term));
    Filter(docs, (x: Listing) => MatchesSearch(x, term))
  }

  /** With no search term the page is kept whole. */
  lemma EmptySearchKeepsPage(docs: seq<Listing>)
    ensures SearchFilter(docs, "") == docs
  {
    FilterKeepsAll(docs, (x: Listing) => MatchesSearch(x, ""));
  }

  /** Setting `loading` when a fetch starts. */
  function StartFetch(s: BrowseState): (r: BrowseState)
    ensures r.loading && r.(loading := s.loading) == s
  {
    s.(loading := true)
  }

  /**
   The end of `fetchItems(isLoadMore)`: `page` is the fetched documents, or none
   when the fetch failed (the error is only logged).
   */
  function FinishFetch(s: BrowseState, isLoadMore: bool, term: string, page: Option<seq<Listing>>): (r: BrowseState)
    ensures !r.loading
    ensures page.None? ==> r == s.(loading := false)
    ensures page.Some? && isLoadMore ==> r.items == s.items + SearchFilter(page.value, term)
    ensures page.Some? && !isLoadMore ==> r.items == SearchFilter(page.value, term)
    ensures page.Some? ==> (r.hasMore <==> |page.value| == PageSize)
    ensures page.Some? && |page.value| > 0 ==> r.lastDoc == Some(page.value[|page.value| - 1].id)
    ensures page.Some? && |page.value| == 0 ==> r.lastDoc.None?
  {
    match page
    case None => s.(loading := false)
    case Some(docs) =>
      var kept := SearchFilter(docs, term);
      BrowseState(
        if isLoadMore then s.items + kept else kept,
        if |docs| > 0 then Some(docs[|docs| - 1].id) else None,
        |docs| == PageSize,
        false)
  }

  /** Appending filtered pages is filtering the pages joined: the list shows exactly the matching documents fetched so far. */
  lemma PagesAccumulate(s: BrowseState, term: string, first: seq<Listing>, second: seq<Listing>)
    ensures FinishFetch(FinishFetch(s, false, term, Some(first)), true, term, Some(second)).items
         == SearchFilter(first + second, term)
  {
    FilterAppend(first, second, (x: Listing) => MatchesSearch(x, term));
  }

  /** A short page ends the pagination. */
  lemma ShortPageStops(s: BrowseState, isLoadMore: bool, term: string, docs: seq<Listing>)
    requires |docs| < PageSize
    ensures !FinishFetch(s, isLoadMore, term, Some(docs)).hasMore
  {
  }

  /** `loadMoreItems`: the query it sends, or none when the guard holds it back. */
  function LoadMoreItems(s: BrowseState, f: Filters): (r: Option<seq<Clause>>)
    ensures r.Some? <==> s.hasMore && !s.loading
    ensures r.Some? ==> r.value == BuildQuery(f, true, s.lastDoc)
  {
    if s.hasMore && !s.loading then Some(BuildQuery(f, true, s.lastDoc)) else None
  }

  /** The reset a filter or search change performs before its fresh fetch. */
  function ResetForNewFilters(s: BrowseState): (r: BrowseState)
    ensures r.items == [] && r.lastDoc.None? && r.hasMore && r.loading
    ensures r == InitialState
  {
    BrowseState([], None, true, true)
  }

  /** After a reset the fresh fetch never skips ahead, and its result replaces the list. */
  lemma ResetFetchStartsOver(s: BrowseState, f: Filters, docs: seq<Listing>)
    ensures var r := ResetForNewFilters(s);
      && (forall c :: c in BuildQuery(f, false, r.lastDoc) ==> !c.StartAfter?)
      && FinishFetch(r, false, f.searchTerm, Some(docs)).items == SearchFilter(docs, f.searchTerm)
  {
  }

  /** While a fetch is running, load-more sends nothing. */
  lemma NoLoadMoreWhileLoading(s: BrowseState, f: Filters)
    ensures LoadMoreItems(StartFetch(s), f).None?
  {
  }

  // ---------------------------------------------------------------------------
  // Points display

  datatype Band = Emerald | Amber | Red

  /** `getPointsColor`: up to 50 emerald, up to 100 amber, above that red. */
  function PointsBand(points: int): (b: Band)
    ensures b == Emerald <==> points <= 50
    ensures b == Amber <==> 50 < points <= 100
    ensures b == Red <==> points > 100
  {
    if points <= 50 then Emerald else if points <= 100 then Amber else Red
  }

  /** The badge classes of each band. */
  function BandClasses(b: Band): string
  {
    match b
    case Emerald => "bg-emerald-50 text-emerald-700 border-emerald-200"
    case Amber => "bg-amber-50 text-amber-700 border-amber-200"
    case Red => "bg-red-50 text-red-700 border-red-200"
  }

  /** `getPointsColor(points)` as written: the classes of the band the price falls in. */
  function PointsColor(points: int): (c: string)
    ensures c == BandClasses(PointsBand(points))
  {
    if points <= 50 then "bg-emerald-50 text-emerald-700 border-emerald-200"
    else if points <= 100 then "bg-amber-50 text-amber-700 border-amber-200"
    else "bg-red-50 text-red-700 border-red-200"
  }

  function BandRank(b: Band): nat
  {
    match b
    case Emerald => 0
    case Amber => 1
    case Red => 2
  }

  /** A pricier item never gets a cheaper-looking band. */
  lemma PointsBandMonotone(p: int, q: int)
    requires p <= q
    ensures BandRank(PointsBand(p)) <= BandRank(PointsBand(q))
  {
  }

  // ---------------------------------------------------------------------------
  // The page's balance and its affordability gate

  /** `canAfford(itemPoints)`: the page's own balance against the price; unlike the hook's test it needs no user. */
  function CanAfford(userPoints: int, itemPoints: int): (r: bool)
    ensures r <==> itemPoints <= userPoints
    ensures itemPoints <= 0 && userPoints >= 0 ==> r
  {
    userPoints >= itemPoints
  }

  /** The "View Details" button's `disabled` flag; the same test shows the "Insufficient Points" overlay. */
  function DetailsDisabled(userPoints: int, itemPoints: int): (r: bool)
    ensures r <==> userPoints < itemPoints
    ensures userPoints == 0 ==> (r <==> itemPoints > 0)
  {
    !CanAfford(userPoints, itemPoints)
  }

  /** The button is disabled exactly when the balance is below the price, and more points never disable it. */
  lemma DetailsDisabledRule(userPoints: int, itemPoints: int, morePoints: int)
    requires morePoints >= userPoints
    ensures DetailsDisabled(userPoints, itemPoints) <==> userPoints < itemPoints
    ensures !DetailsDisabled(userPoints, itemPoints) ==> !DetailsDisabled(morePoints, itemPoints)
  {
  }

  /** The string properties of the hook's user object; any other key reads as `undefined`. */
  function UserProperty(u: Wallet.User, key: string): (v: Option<string>)
    ensures v.Some? <==> key in {"id", "email", "name", "firstName", "lastName", "imageUrl"}
    ensures key == "id" ==> v == Some(u.id)
  {
    if key == "id" then Some(u.id)
    else if key == "email" then Some(u.email)
    else if key == "name" then Some(u.name)
    else if key == "firstName" then Some(u.firstName)
    else if key == "lastName" then Some(u.lastName)
    else if key == "imageUrl" then Some(u.imageUrl)
    else None
  }

  /**
   `fetchUserPoints`, reading the document id from property `key` of the hook's
   user. `docs` maps each stored user document's id to its `points` field (none
   when the field is missing), or is none when the read fails. An undefined id
   makes `doc()` throw; that error, like a failed read or a missing document,
   is only logged and the balance stays as it was.
   */
  function FetchUserPoints(balance: int, user: Option<Wallet.User>, key: string,
                           docs: Option<map<string, Option<int>>>): (r: int)
    ensures user.None? || docs.None? ==> r == balance
    ensures user.Some? && UserProperty(user.value, key).None? ==> r == balance
    ensures user.Some? && docs.Some? && UserProperty(user.value, key).Some?
            && UserProperty(user.value, key).value in docs.value
            ==> r == Wallet.OrZero(docs.value[UserProperty(user.value, key).value])
    ensures user.Some? && docs.Some? && UserProperty(user.value, key).Some?
            && UserProperty(user.value, key).value !in docs.value
            ==> r == balance
  {
    if user.None? then balance
    else match UserProperty(user.value, key)
      case None => balance
      case Some(id) =>
        if docs.None? || id !in docs.value then balance
        else Wallet.OrZero(docs.value[id])
  }

  /** The page's balance as the code computes it: from its initial 0, looked up under `user.uid`. */
  function PageBalanceAsWritten(user: Option<Wallet.User>, docs: Option<map<string, Option<int>>>): (r: int)
    ensures r == 0
  {
    FetchUserPoints(0, user, "uid", docs)
  }

  /** As written, every item with a positive price shows as unaffordable, whatever the user holds. */
  lemma GateDisagreesWithWallet()
    ensures var u := Wallet.User("user_1", "", "", "", "", "", 100, 0, 0,
                                 Wallet.Stats(Some(0), Some(0), Some(100), Some(0)));
      var h := Wallet.Hook(Wallet.Session(true, true, Some("user_1"), None), Some(u), None);
      var docs := Some(map["user_1" := Some(100)]);
      && Wallet.CanAfford(h, 10)
      && DetailsDisabled(PageBalanceAsWritten(h.user, docs), 10)
  {
  }

  /** The page's balance with the lookup keyed on the user's `id`, the field the hook sets. */
  function PageBalance(user: Option<Wallet.User>, docs: Option<map<string, Option<int>>>): (r: int)
    ensures user.Some? && docs.Some? && user.value.id in docs.value ==> r == Wallet.OrZero(docs.value[user.value.id])
    ensures user.None? || docs.None? ==> r == 0
    ensures user.Some? && docs.Some? && user.value.id !in docs.value ==> r == 0
  {
    FetchUserPoints(0, user, "id", docs)
  }

  /** With the corrected lookup and a stored balance equal to the hook's, the page's gate and the hook's agree. */
  lemma PageGateMatchesWallet(h: Wallet.Hook, docs: map<string, Option<int>>, itemPoints: int)
    requires h.user.Some? && h.user.value.id in docs && docs[h.user.value.id] == Some(h.user.value.points)
    ensures CanAfford(PageBalance(h.user, Some(docs)), itemPoints) <==> Wallet.CanAfford(h, itemPoints)
    ensures DetailsDisabled(PageBalance(h.user, Some(docs)), itemPoints) <==> !Wallet.CanAfford(h, itemPoints)
  {
  }
}
