/** The scraper of the Korean food information site's meal catalogue:
    a paginated listing of dishes, and for each dish a two-page nutrient
    table. HTTP and HTML selection are abstracted: a detail page arrives as
    its table rows (each the texts of the row's value cells), a listing page
    as its category-cell texts and its dish-name anchors. Every request the
    scraper issues is recorded, in order, in a trace of events. */
module KoreaFood {
  import opened Wrappers
  import Text

  /** A scraped dish: its name, its two category labels and its raw
      nutrient table, keyed by ingredient name. Each ingredient maps to
      `[weight, value_1, value_2, ...]` as the cells read them. */
  datatype Food = Food(
    name: string,
    categoryBig: string,
    categorySmall: string,
    aliment: map<string, seq<string>>)

  /** The constructor: a dish with the given name, empty category labels and
      no ingredients yet. */
  function NewFood(name: string): (f: Food)
    ensures f.name == name && f.categoryBig == "" && f.categorySmall == ""
    ensures f.aliment == map[]
  {
    Food(name, "", "", map[])
  }

  // ---------------------------------------------------------------------
  // Detail pages: the nutrient table of one dish
  // ---------------------------------------------------------------------

  /** The texts of one table row's value cells. */
  type Cells = seq<string>

  /** A POST to the analysis page: the query string carries `mealcode` and
      `mealname`, the form carries `meal_CD`, `meal_NM` and `h_NutriPage`. */
  datatype DetailRequest = DetailRequest(
    mealcode: string,
    mealname: string,
    mealCD: string,
    mealNM: string,
    nutriPage: nat)

  datatype DetailResponse = DetailPage(rows: seq<Cells>) | DetailFailed

  /** The analysis view of a dish is split over this many pages. */
  const DetailPages: nat := 2

  /** The request for one page of the analysis of dish `code`. */
  function AnalysisRequest(code: string, page: nat): DetailRequest
  {
    DetailRequest(code, "", code, "", page)
  }

  /** `rows[:-1]`: the table without its last row, the total. */
  function WithoutTotal(rows: seq<Cells>): (r: seq<Cells>)
    ensures rows == [] ==> r == []
    ensures rows != [] ==> rows == r + [rows[|rows| - 1]]
  {
    if rows == [] then [] else rows[..|rows| - 1]
  }

  /** `data[2:]`: the cells after the ingredient name and the weight. */
  function Rest(cells: Cells): seq<string>
  {
    if |cells| <= 2 then [] else cells[2..]
  }

  /** Records one row: the first row of an ingredient starts its list with
      the weight cell; every row then appends its remaining cells. */
  function MergeRow(acc: map<string, seq<string>>, cells: Cells): (r: Result<map<string, seq<string>>>)
    ensures r.Ok? <==> |cells| > 0 && (cells[0] in acc || |cells| >= 2)
    ensures r.Err? ==> r.error == IndexError
    ensures r.Ok? ==> r.value.Keys == acc.Keys + {cells[0]}
  {
    if |cells| == 0 then Err(IndexError)
    else if cells[0] !in acc && |cells| < 2 then Err(IndexError)
    else
      var start := if cells[0] in acc then acc[cells[0]] else [cells[1]];
      Ok(acc[cells[0] := start + Rest(cells)])
  }

  /** Records the rows in order, stopping at the first row that fails. */
  function MergeRows(acc: map<string, seq<string>>, rows: seq<Cells>): (r: Result<map<string, seq<string>>>)
    ensures r.Err? ==> r.error == IndexError
    ensures r.Ok? ==> acc.Keys <= r.value.Keys
    decreases |rows|
  {
    if rows == [] then Ok(acc)
    else
      match MergeRow(acc, rows[0])
      case Err(e) => Err(e)
      case Ok(next) => MergeRows(next, rows[1..])
  }

  /** Pages `page` .. DetailPages of the analysis of `code`, merged into
      `acc`, with the requests they issue. */
  function AnalysisFrom(
    code: string, detail: DetailRequest -> DetailResponse,
    page: nat, acc: map<string, seq<string>>): (r: (Result<map<string, seq<string>>>, seq<DetailRequest>))
    requires 1 <= page <= DetailPages + 1
    ensures |r.1| <= DetailPages + 1 - page
    ensures page <= DetailPages ==> |r.1| >= 1
    ensures r.0.Ok? ==> |r.1| == DetailPages + 1 - page
    ensures forall i :: 0 <= i < |r.1| ==> r.1[i] == AnalysisRequest(code, page + i)
    decreases DetailPages + 1 - page
  {
    if page == DetailPages + 1 then (Ok(acc), [])
    else
      var request := AnalysisRequest(code, page);
      match detail(request)
      case DetailFailed => (Err(TransportError), [request])
      case DetailPage(rows) =>
        match MergeRows(acc, WithoutTotal(rows))
        case Err(e) => (Err(e), [request])
        case Ok(next) =>
          var rest := AnalysisFrom(code, detail, page + 1, next);
          (rest.0, [request] + rest.1)
  }

  /** The nutrient table of dish `code` and the requests issued to get it. */
  function Analysis(code: string, detail: DetailRequest -> DetailResponse): (Result<map<string, seq<string>>>, seq<DetailRequest>)
  {
    AnalysisFrom(code, detail, 1, map[])
  }

  /** The ingredient names of the rows (first cells of non-empty rows). */
  function Names(rows: seq<Cells>): set<string>
  {
    set i | 0 <= i < |rows| && |rows[i]| > 0 :: rows[i][0]
  }

  /** The cells after the weight of every row of ingredient `k`, in row order. */
  function Contribution(rows: seq<Cells>, k: string): seq<string>
  {
    if rows == [] then []
    else (if |rows[0]| > 0 && rows[0][0] == k then Rest(rows[0]) else []) + Contribution(rows[1..], k)
  }

  /** How many cells the rows of ingredient `k` bring after their weight. */
  function ContributedCount(rows: seq<Cells>, k: string): nat
  {
    if rows == [] then 0
    else (if |rows[0]| > 2 && rows[0][0] == k then |rows[0]| - 2 else 0) + ContributedCount(rows[1..], k)
  }

  /** The first row of ingredient `k`. */
  function FirstRow(rows: seq<Cells>, k: string): (r: Cells)
    requires k in Names(rows)
    ensures |r| > 0 && r[0] == k && r in rows
  {
    if |rows[0]| > 0 && rows[0][0] == k then rows[0]
    else
      assert k in Names(rows[1..]) by {
        var i :| 0 <= i < |rows| && |rows[i]| > 0 && rows[i][0] == k;
        assert i != 0;
        assert rows[1..][i - 1] == rows[i];
      }
      FirstRow(rows[1..], k)
  }

  /** A row can be recorded when it has a name, and a weight too unless its
      ingredient was already seen. */
  predicate Recordable(known: set<string>, rows: seq<Cells>, i: nat)
    requires i < |rows|
  {
    |rows[i]| >= 2 || (|rows[i]| == 1 && rows[i][0] in known + Names(rows[..i]))
  }

  lemma NamesCons(rows: seq<Cells>)
    requires rows != []
    ensures Names(rows) == (if |rows[0]| > 0 then {rows[0][0]} else {}) + Names(rows[1..])
  {
    var tail := Names(rows[1..]);
    forall k | k in Names(rows) ensures k in (if |rows[0]| > 0 then {rows[0][0]} else {}) + tail {
      var i :| 0 <= i < |rows| && |rows[i]| > 0 && rows[i][0] == k;
      if i > 0 { assert rows[1..][i - 1] == rows[i]; }
    }
    forall k | k in tail ensures k in Names(rows) {
      var i :| 0 <= i < |rows[1..]| && |rows[1..][i]| > 0 && rows[1..][i][0] == k;
      assert rows[i + 1] == rows[1..][i];
    }
  }

  /** One step of the merge: the first row is recorded, then the others. */
  lemma MergeRowsStep(acc: map<string, seq<string>>, rows: seq<Cells>)
    requires rows != [] && MergeRows(acc, rows).Ok?
    ensures MergeRow(acc, rows[0]).Ok?
    ensures MergeRows(acc, rows) == MergeRows(MergeRow(acc, rows[0]).value, rows[1..])
    ensures var next := MergeRow(acc, rows[0]).value;
            var name := rows[0][0];
            && next.Keys == acc.Keys + {name}
            && (name in acc ==> next[name] == acc[name] + Rest(rows[0]))
            && (name !in acc ==> |rows[0]| >= 2 && next[name] == [rows[0][1]] + Rest(rows[0]))
            && next == acc[name := next[name]]
  {
  }

  /** The merged table's ingredients are the ones already present and the
      names of the rows. */
  lemma {:induction false} MergeRowsKeys(acc: map<string, seq<string>>, rows: seq<Cells>)
    requires MergeRows(acc, rows).Ok?
    ensures MergeRows(acc, rows).value.Keys == acc.Keys + Names(rows)
    decreases |rows|
  {
    if rows != [] {
      MergeRowsStep(acc, rows);
      MergeRowsKeys(MergeRow(acc, rows[0]).value, rows[1..]);
      NamesCons(rows);
    }
  }

  /** An ingredient already present keeps its list and gains the cells
      after the weight of each of its rows, in row order. */
  lemma {:induction false} MergeRowsExtends(acc: map<string, seq<string>>, rows: seq<Cells>, k: string)
    requires MergeRows(acc, rows).Ok? && k in acc
    ensures k in MergeRows(acc, rows).value
    ensures MergeRows(acc, rows).value[k] == acc[k] + Contribution(rows, k)
    decreases |rows|
  {
    if rows != [] {
      MergeRowsStep(acc, rows);
      var next := MergeRow(acc, rows[0]).value;
      MergeRowsExtends(next, rows[1..], k);
      if k == rows[0][0] {
        assert Contribution(rows, k) == Rest(rows[0]) + Contribution(rows[1..], k);
        assert (acc[k] + Rest(rows[0])) + Contribution(rows[1..], k) == acc[k] + (Rest(rows[0]) + Contribution(rows[1..], k));
      } else {
        assert Contribution(rows, k) == [] + Contribution(rows[1..], k);
      }
    }
  }

  /** A new ingredient gets the weight of its first row followed by the
      cells after the weight of all its rows, in row order. */
  lemma {:induction false} MergeRowsIntroduces(acc: map<string, seq<string>>, rows: seq<Cells>, k: string)
    requires MergeRows(acc, rows).Ok? && k in Names(rows) && k !in acc
    ensures k in MergeRows(acc, rows).value
    ensures |FirstRow(rows, k)| >= 2
    ensures MergeRows(acc, rows).value[k] == [FirstRow(rows, k)[1]] + Contribution(rows, k)
    decreases |rows|
  {
    MergeRowsStep(acc, rows);
    if k == rows[0][0] {
      IntroducedByFirstRow(acc, rows, k);
    } else {
      var next := MergeRow(acc, rows[0]).value;
      NamesCons(rows);
      assert k !in next;
      MergeRowsIntroduces(next, rows[1..], k);
      LaterRow(rows, k);
    }
  }

  /** A first row that does not name `k` neither is its first row nor
      contributes to it. */
  lemma LaterRow(rows: seq<Cells>, k: string)
    requires rows != [] && |rows[0]| > 0 && rows[0][0] != k && k in Names(rows[1..])
    ensures k in Names(rows)
    ensures FirstRow(rows, k) == FirstRow(rows[1..], k)
    ensures Contribution(rows, k) == Contribution(rows[1..], k)
  {
    NamesCons(rows);
    assert Contribution(rows, k) == [] + Contribution(rows[1..], k);
  }

  /** The case of MergeRowsIntroduces where the first row names `k`. */
  lemma IntroducedByFirstRow(acc: map<string, seq<string>>, rows: seq<Cells>, k: string)
    requires rows != [] && MergeRows(acc, rows).Ok? && |rows[0]| > 0 && rows[0][0] == k && k !in acc
    ensures k in MergeRows(acc, rows).value
    ensures |FirstRow(rows, k)| >= 2
    ensures MergeRows(acc, rows).value[k] == [FirstRow(rows, k)[1]] + Contribution(rows, k)
  {
    MergeRowsStep(acc, rows);
    MergeRowsExtends(MergeRow(acc, rows[0]).value, rows[1..], k);
    FirstRowList(rows, k);
  }

  /** The list a first row of `k` starts, extended by the later rows, is
      the weight of the first row followed by all of `k`'s contributions. */
  lemma FirstRowList(rows: seq<Cells>, k: string)
    requires rows != [] && |rows[0]| >= 2 && rows[0][0] == k
    ensures k in Names(rows) && FirstRow(rows, k) == rows[0]
    ensures ([rows[0][1]] + Rest(rows[0])) + Contribution(rows[1..], k) == [FirstRow(rows, k)[1]] + Contribution(rows, k)
  {
    assert k in Names(rows) by {
      assert |rows[0]| > 0 && rows[0][0] == k;
    }
    assert Contribution(rows, k) == Rest(rows[0]) + Contribution(rows[1..], k);
    assert ([rows[0][1]] + Rest(rows[0])) + Contribution(rows[1..], k) == [rows[0][1]] + (Rest(rows[0]) + Contribution(rows[1..], k));
  }

  /** The length of an ingredient's list: one weight plus the cells that
      each of its rows brings after its weight. */
  lemma {:induction false} ContributionLength(rows: seq<Cells>, k: string)
    ensures |Contribution(rows, k)| == ContributedCount(rows, k)
    decreases |rows|
  {
    if rows != [] {
      ContributionLength(rows[1..], k);
    }
  }

  /** When the merge fails: it succeeds exactly when every row is
      recordable given the ingredients seen before it. */
  lemma {:induction false} MergeRowsSucceeds(acc: map<string, seq<string>>, rows: seq<Cells>)
    ensures MergeRows(acc, rows).Ok? <==> forall i :: 0 <= i < |rows| ==> Recordable(acc.Keys, rows, i)
    decreases |rows|
  {
    if rows != [] {
      assert rows[..0] == [];
      if MergeRow(acc, rows[0]).Ok? {
        var next := MergeRow(acc, rows[0]).value;
        MergeRowsSucceeds(next, rows[1..]);
        assert next.Keys == acc.Keys + {rows[0][0]};
        forall i | 1 <= i < |rows|
          ensures Recordable(acc.Keys, rows, i) <==> Recordable(next.Keys, rows[1..], i - 1)
        {
          assert rows[..i] == [rows[0]] + rows[1..][..i - 1];
          NamesCons(rows[..i]);
          assert rows[..i][1..] == rows[1..][..i - 1];
          assert rows[1..][i - 1] == rows[i];
        }
        if forall j :: 0 <= j < |rows[1..]| ==> Recordable(next.Keys, rows[1..], j) {
          forall i | 0 <= i < |rows| ensures Recordable(acc.Keys, rows, i) {
            if i > 0 {
              assert Recordable(next.Keys, rows[1..], i - 1);
            }
          }
        } else {
          var j :| 0 <= j < |rows[1..]| && !Recordable(next.Keys, rows[1..], j);
          assert !Recordable(acc.Keys, rows, j + 1);
        }
      } else {
        assert !Recordable(acc.Keys, rows, 0);
      }
    }
  }

  /** Merging two tables in turn is merging their rows in one go. */
  lemma {:induction false} MergeRowsAppend(acc: map<string, seq<string>>, a: seq<Cells>, b: seq<Cells>)
    ensures MergeRows(acc, a + b) ==
            match MergeRows(acc, a)
            case Err(e) => Err(e)
            case Ok(m) => MergeRows(m, b)
    decreases |a|
  {
    if a == [] {
      assert a + b == b;
    } else {
      assert (a + b)[0] == a[0];
      assert (a + b)[1..] == a[1..] + b;
      if MergeRow(acc, a[0]).Ok? {
        MergeRowsAppend(MergeRow(acc, a[0]).value, a[1..], b);
      }
    }
  }

  /** The last page of the analysis: one request, whose rows without the
      total are merged into `acc` and returned. */
  lemma LastPage(code: string, detail: DetailRequest -> DetailResponse, acc: map<string, seq<string>>)
    ensures var request := AnalysisRequest(code, DetailPages);
            AnalysisFrom(code, detail, DetailPages, acc)
            == if detail(request).DetailFailed? then (Err(TransportError), [request])
               else (MergeRows(acc, WithoutTotal(detail(request).rows)), [request])
  {
    var request := AnalysisRequest(code, DetailPages);
    if detail(request).DetailPage? {
      var merged := MergeRows(acc, WithoutTotal(detail(request).rows));
      if merged.Ok? {
        assert AnalysisFrom(code, detail, DetailPages + 1, merged.value) == (Ok(merged.value), []);
        assert [request] + [] == [request];
      }
    }
  }

  /** The requests of the analysis fetch: page 1, then page 2 unless page 1
      failed, the requests differing only in the page number. A failed first
      request ends the fetch after that request. */
  lemma AnalysisRequests(code: string, detail: DetailRequest -> DetailResponse)
    ensures var requests := Analysis(code, detail).1;
            && 1 <= |requests| <= 2
            && requests[0] == AnalysisRequest(code, 1)
            && (|requests| == 2 ==> requests[1] == AnalysisRequest(code, 2))
    ensures detail(AnalysisRequest(code, 1)).DetailFailed? ==>
              Analysis(code, detail) == (Err(TransportError), [AnalysisRequest(code, 1)])
  {
    var req1, req2 := AnalysisRequest(code, 1), AnalysisRequest(code, 2);
    AnalysisStep(code, detail, 1, map[]);
    if detail(req1).DetailPage? {
      var m1 := MergeRows(map[], WithoutTotal(detail(req1).rows));
      if m1.Ok? {
        LastPage(code, detail, m1.value);
        assert Analysis(code, detail).1 == [req1] + [req2];
      }
    }
  }

  /** What a successful analysis fetch returns: both pages were served, and
      the result is the merge of both tables' rows, page 1 first, each
      without its total row. */
  lemma AnalysisMeaning(code: string, detail: DetailRequest -> DetailResponse)
    ensures var req1, req2 := AnalysisRequest(code, 1), AnalysisRequest(code, 2);
            Analysis(code, detail).0.Ok? ==>
              && Analysis(code, detail).1 == [req1, req2]
              && detail(req1).DetailPage? && detail(req2).DetailPage?
              && Analysis(code, detail).0 == MergeRows(map[], WithoutTotal(detail(req1).rows) + WithoutTotal(detail(req2).rows))
  {
    var req1, req2 := AnalysisRequest(code, 1), AnalysisRequest(code, 2);
    AnalysisStep(code, detail, 1, map[]);
    if detail(req1).DetailPage? {
      var rows1 := WithoutTotal(detail(req1).rows);
      var m1 := MergeRows(map[], rows1);
      if m1.Ok? {
        LastPage(code, detail, m1.value);
        if detail(req2).DetailPage? {
          MergeRowsAppend(map[], rows1, WithoutTotal(detail(req2).rows));
          assert [req1] + [req2] == [req1, req2];
        }
      }
    }
  }

  /** The total row of a detail page never reaches the result: whatever the
      last rows of the two pages hold, the analysis is the same. */
  lemma TotalRowIgnored(
    code: string, rows1: seq<Cells>, rows2: seq<Cells>, total1: Cells, total2: Cells, other1: Cells, other2: Cells,
    detail: DetailRequest -> DetailResponse, detail': DetailRequest -> DetailResponse)
    requires detail(AnalysisRequest(code, 1)) == DetailPage(rows1 + [total1])
    requires detail(AnalysisRequest(code, 2)) == DetailPage(rows2 + [total2])
    requires detail'(AnalysisRequest(code, 1)) == DetailPage(rows1 + [other1])
    requires detail'(AnalysisRequest(code, 2)) == DetailPage(rows2 + [other2])
    ensures Analysis(code, detail) == Analysis(code, detail')
  {
    assert WithoutTotal(rows1 + [total1]) == rows1 == WithoutTotal(rows1 + [other1]);
    assert WithoutTotal(rows2 + [total2]) == rows2 == WithoutTotal(rows2 + [other2]);
  }

  // ---------------------------------------------------------------------
  // Listing pages: dish names, categories and meal codes
  // ---------------------------------------------------------------------

  /** A dish-name anchor: its text and its `href`. */
  datatype Anchor = Anchor(text: string, href: string)

  /** A listing page: the texts of its category cells (three per dish) and
      its dish-name anchors. */
  datatype ListingResponse = ListingPage(categories: seq<string>, anchors: seq<Anchor>) | ListingFailed

  /** What a run of the listing generator does, in order. */
  datatype Event =
    | ListRequested(page: nat)
    | DetailRequested(request: DetailRequest)
    | Yielded(food: Food)

  /** A response after which the generator requests no further page. */
  predicate EndsListing(r: ListingResponse)
  {
    r.ListingFailed? || |r.anchors| == 0
  }

  /** The index of the first string with the given prefix, if any: the
      element `filter(lambda x: x.startswith(prefix), args)[0]` picks. */
  function FirstWithPrefix(args: seq<string>, prefix: string): (r: Option<nat>)
    ensures r.Some? ==> r.value < |args| && Text.StartsWith(args[r.value], prefix)
    ensures r.Some? ==> forall j :: 0 <= j < r.value ==> !Text.StartsWith(args[j], prefix)
    ensures r.None? ==> forall j :: 0 <= j < |args| ==> !Text.StartsWith(args[j], prefix)
  {
    if args == [] then None
    else if Text.StartsWith(args[0], prefix) then Some(0)
    else
      match FirstWithPrefix(args[1..], prefix)
      case None => None
      case Some(i) => Some(i + 1)
  }

  /** The `&`-separated arguments of the part of `href` after its first `?`
      (up to a second `?`, if any). */
  function QueryArgs(href: string): seq<string>
    requires '?' in href
  {
    Text.SplitSeveral(href, '?');
    Text.Split(Text.Split(href, '?')[1], '&')
  }

  /** The dish code in a name anchor's `href`. */
  function MealCode(href: string): (r: Result<string>)
    ensures '?' !in href ==> r == Err(IndexError)
    ensures r.Err? ==> r.error == IndexError
    ensures r.Ok? ==> '=' !in r.value
  {
    Text.SplitSeveral(href, '?');
    var parts := Text.Split(href, '?');
    if |parts| < 2 then Err(IndexError)
    else
      var args := Text.Split(parts[1], '&');
      match FirstWithPrefix(args, "meal_code")
      case None => Err(IndexError)
      case Some(i) =>
        var pieces := Text.Split(args[i], '=');
        Ok(pieces[|pieces| - 1])
  }

  /** What the code extraction yields: it fails exactly when the `href` has
      no `?` or no query argument starts with `meal_code`; otherwise the code
      is the text after the last `=` of the first such argument (the whole
      argument if it has no `=`). */
  lemma MealCodeMeaning(href: string)
    ensures '?' !in href ==> MealCode(href) == Err(IndexError)
    ensures '?' in href ==>
              var args := QueryArgs(href);
              match FirstWithPrefix(args, "meal_code")
              case None => MealCode(href) == Err(IndexError)
              case Some(i) =>
                && MealCode(href).Ok?
                && var code := MealCode(href).value;
                   var arg := args[i];
                   && '=' !in code
                   && |code| <= |arg| && arg[|arg| - |code|..] == code
                   && (|code| < |arg| ==> arg[|arg| - |code| - 1] == '=')
                   && (|code| == |arg| <==> '=' !in arg)
  {
    Text.SplitSeveral(href, '?');
    if '?' in href {
      var args := QueryArgs(href);
      match FirstWithPrefix(args, "meal_code")
      case None =>
      case Some(i) => Text.LastPieceIsTail(args[i], '=');
    }
  }

  /** `categories[3:]`: the category cells left for the next dish. */
  function DropThree(categories: seq<string>): seq<string>
  {
    if |categories| <= 3 then [] else categories[3..]
  }

  function DetailEvents(requests: seq<DetailRequest>): (events: seq<Event>)
    ensures |events| == |requests|
    ensures forall i :: 0 <= i < |requests| ==> events[i] == DetailRequested(requests[i])
  {
    if requests == [] then [] else [DetailRequested(requests[0])] + DetailEvents(requests[1..])
  }

  /** One dish of a listing page: the stripped anchor text as its name, the
      first two remaining category cells, and the analysis of its code. */
  function FoodEntry(categories: seq<string>, anchor: Anchor, detail: DetailRequest -> DetailResponse): (Result<Food>, seq<DetailRequest>)
  {
    var name := Text.Strip(anchor.text);
    if |categories| < 2 then (Err(IndexError), [])
    else
      match MealCode(anchor.href)
      case Err(e) => (Err(e), [])
      case Ok(code) =>
        var analysis := Analysis(code, detail);
        match analysis.0
        case Err(e) => (Err(e), analysis.1)
        case Ok(m) =>
          (Ok(NewFood(name).(categoryBig := categories[0], categorySmall := categories[1], aliment := m)),
           analysis.1)
  }

  /** How one dish is made from the category cells not yet consumed and its
      anchor: the dish or the error, and the detail requests it issues. */
  type DishFetch = (seq<string>, Anchor) -> (Result<Food>, seq<DetailRequest>)

  /** The scraper's dish fetch over the detail pages `detail`. */
  function Fetch(detail: DetailRequest -> DetailResponse): DishFetch
  {
    (categories, anchor) => FoodEntry(categories, anchor, detail)
  }

  /** The dishes of the anchors of a listing page, given the category cells
      not yet consumed: each dish is yielded as soon as it is made, and the
      first failure ends the page. */
  function Page(categories: seq<string>, anchors: seq<Anchor>, fetch: DishFetch): (seq<Event>, Result<()>)
    decreases |anchors|
  {
    if anchors == [] then ([], Ok(()))
    else
      var entry := fetch(categories, anchors[0]);
      match entry.0
      case Err(e) => (DetailEvents(entry.1), Err(e))
      case Ok(f) =>
        var rest := Page(DropThree(categories), anchors[1..], fetch);
        (DetailEvents(entry.1) + [Yielded(f)] + rest.0, rest.1)
  }

  /** The listing from page `n` on. `last` is a page that ends the listing
      (an empty or failed page): the site's listing is finite. */
  function ListingFrom(listing: nat -> ListingResponse, fetch: DishFetch, n: nat, last: nat): (r: (seq<Event>, Result<()>))
    requires 1 <= n <= last && EndsListing(listing(last))
    ensures |r.0| > 0 && r.0[0] == ListRequested(n)
    decreases last - n
  {
    var response := listing(n);
    if response.ListingFailed? then ([ListRequested(n)], Err(TransportError))
    else
      var page := Page(response.categories, response.anchors, fetch);
      if page.1.Err? || |response.anchors| == 0 then ([ListRequested(n)] + page.0, page.1)
      else
        var rest := ListingFrom(listing, fetch, n + 1, last);
        ([ListRequested(n)] + page.0 + rest.0, rest.1)
  }

  /** A run of the whole listing generator. */
  function Listing(listing: nat -> ListingResponse, detail: DetailRequest -> DetailResponse, last: nat): (seq<Event>, Result<()>)
    requires 1 <= last && EndsListing(listing(last))
  {
    ListingFrom(listing, Fetch(detail), 1, last)
  }

  /** The dishes a trace yields, in order. */
  function Yields(events: seq<Event>): seq<Food>
  {
    if events == [] then []
    else (if events[0].Yielded? then [events[0].food] else []) + Yields(events[1..])
  }

  /** The listing pages a trace requests, in order. */
  function RequestedPages(events: seq<Event>): seq<nat>
  {
    if events == [] then []
    else (if events[0].ListRequested? then [events[0].page] else []) + RequestedPages(events[1..])
  }

  lemma {:induction false} YieldsAppend(a: seq<Event>, b: seq<Event>)
    ensures Yields(a + b) == Yields(a) + Yields(b)
    decreases |a|
  {
    if a != [] {
      YieldsAppend(a[1..], b);
      assert (a + b)[0] == a[0];
      assert (a + b)[1..] == a[1..] + b;
    } else {
      assert a + b == b;
    }
  }

  lemma {:induction false} RequestedPagesAppend(a: seq<Event>, b: seq<Event>)
    ensures RequestedPages(a + b) == RequestedPages(a) + RequestedPages(b)
    decreases |a|
  {
    if a != [] {
      RequestedPagesAppend(a[1..], b);
      assert (a + b)[0] == a[0];
      assert (a + b)[1..] == a[1..] + b;
    } else {
      assert a + b == b;
    }
  }

  lemma {:induction false} DetailEventsQuiet(requests: seq<DetailRequest>)
    ensures Yields(DetailEvents(requests)) == [] && RequestedPages(DetailEvents(requests)) == []
    decreases |requests|
  {
    if requests != [] {
      DetailEventsQuiet(requests[1..]);
    }
  }

  /** Dish `f` is what anchor `anchor`, the k-th of its page, makes: the
      stripped anchor text as name, category cells 3k and 3k+1 as labels,
      and the analysis of the anchor's meal code as nutrient table. */
  ghost predicate DishOf(f: Food, categories: seq<string>, k: nat, anchor: Anchor, detail: DetailRequest -> DetailResponse)
  {
    && 3 * k + 1 < |categories|
    && f.name == Text.Strip(anchor.text)
    && f.categoryBig == categories[3 * k]
    && f.categorySmall == categories[3 * k + 1]
    && MealCode(anchor.href).Ok?
    && Analysis(MealCode(anchor.href).value, detail).0 == Ok(f.aliment)
  }

  /** A dish the scraper builds has the stripped anchor text as its name,
      the first two category cells as its labels and the analysis of the
      anchor's meal code as its table. */
  lemma FoodEntryMeaning(categories: seq<string>, anchor: Anchor, detail: DetailRequest -> DetailResponse)
    ensures FoodEntry(categories, anchor, detail).0.Ok? ==>
              DishOf(FoodEntry(categories, anchor, detail).0.value, categories, 0, anchor, detail)
  {
  }

  /** One step of a page: the first anchor's dish is made; a failure ends
      the page, a dish is yielded and the remaining anchors follow. */
  lemma PageStep(categories: seq<string>, anchors: seq<Anchor>, fetch: DishFetch)
    requires anchors != []
    ensures var entry := fetch(categories, anchors[0]);
            var tail := Page(DropThree(categories), anchors[1..], fetch);
            && Yields(DetailEvents(entry.1)) == []
            && RequestedPages(DetailEvents(entry.1)) == []
            && (entry.0.Err? ==> Page(categories, anchors, fetch) == (DetailEvents(entry.1), Err(entry.0.error)))
            && (entry.0.Ok? ==> Page(categories, anchors, fetch) == (DetailEvents(entry.1) + [Yielded(entry.0.value)] + tail.0, tail.1))
  {
    DetailEventsQuiet(fetch(categories, anchors[0]).1);
  }

  /** The events of one yielded dish between detail requests and the rest. */
  lemma YieldedBetween(requests: seq<DetailRequest>, f: Food, rest: seq<Event>)
    ensures Yields(DetailEvents(requests) + [Yielded(f)] + rest) == [f] + Yields(rest)
    ensures RequestedPages(DetailEvents(requests) + [Yielded(f)] + rest) == RequestedPages(rest)
  {
    DetailEventsQuiet(requests);
    YieldsAppend(DetailEvents(requests), [Yielded(f)]);
    YieldsAppend(DetailEvents(requests) + [Yielded(f)], rest);
    RequestedPagesAppend(DetailEvents(requests), [Yielded(f)]);
    RequestedPagesAppend(DetailEvents(requests) + [Yielded(f)], rest);
    assert Yields([Yielded(f)]) == [f];
    assert RequestedPages([Yielded(f)]) == [];
  }

  /** A listing page issues no listing request of its own. */
  lemma {:induction false} PageRequestsNone(categories: seq<string>, anchors: seq<Anchor>, fetch: DishFetch)
    ensures RequestedPages(Page(categories, anchors, fetch).0) == []
    decreases |anchors|
  {
    if anchors != [] {
      PageStep(categories, anchors, fetch);
      var entry := fetch(categories, anchors[0]);
      if entry.0.Ok? {
        var tail := Page(DropThree(categories), anchors[1..], fetch);
        PageRequestsNone(DropThree(categories), anchors[1..], fetch);
        YieldedBetween(entry.1, entry.0.value, tail.0);
      }
    }
  }

  /** A page yields at most one dish per anchor, and exactly one per anchor
      when none of its dishes fails. */
  lemma {:induction false} PageCount(categories: seq<string>, anchors: seq<Anchor>, fetch: DishFetch)
    ensures var foods := Yields(Page(categories, anchors, fetch).0);
            && |foods| <= |anchors|
            && (Page(categories, anchors, fetch).1.Ok? <==> |foods| == |anchors|)
    decreases |anchors|
  {
    if anchors != [] {
      PageStep(categories, anchors, fetch);
      var entry := fetch(categories, anchors[0]);
      if entry.0.Ok? {
        var tail := Page(DropThree(categories), anchors[1..], fetch);
        PageCount(DropThree(categories), anchors[1..], fetch);
        YieldedBetween(entry.1, entry.0.value, tail.0);
      }
    }
  }

  /** The k-th dish a page yields is what the fetch makes of its k-th anchor
      and the category cells left after k dishes. */
  lemma {:induction false} PageFoods(categories: seq<string>, anchors: seq<Anchor>, fetch: DishFetch)
    ensures var foods := Yields(Page(categories, anchors, fetch).0);
            forall k :: 0 <= k < |foods| && k < |anchors| ==> fetch(Nth(categories, k), anchors[k]).0 == Ok(foods[k])
    decreases |anchors|
  {
    if anchors != [] {
      var entry := fetch(categories, anchors[0]);
      if entry.0.Err? {
        PageStep(categories, anchors, fetch);
      } else {
        var rest := DropThree(categories);
        PageYieldsCons(categories, anchors, fetch);
        PageFoods(rest, anchors[1..], fetch);
        var foods := Yields(Page(categories, anchors, fetch).0);
        var more := Yields(Page(rest, anchors[1..], fetch).0);
        forall k | 0 <= k < |foods| && k < |anchors| ensures fetch(Nth(categories, k), anchors[k]).0 == Ok(foods[k]) {
          if k == 0 {
            assert Nth(categories, 0) == categories;
          } else {
            NthShift(categories, k - 1);
            assert anchors[k] == anchors[1..][k - 1];
            assert foods[k] == more[k - 1];
          }
        }
      }
    }
  }

  /** A page whose first dish is made yields it, then the rest of the page. */
  lemma PageYieldsCons(categories: seq<string>, anchors: seq<Anchor>, fetch: DishFetch)
    requires anchors != [] && fetch(categories, anchors[0]).0.Ok?
    ensures Yields(Page(categories, anchors, fetch).0)
            == [fetch(categories, anchors[0]).0.value] + Yields(Page(DropThree(categories), anchors[1..], fetch).0)
  {
    PageStep(categories, anchors, fetch);
    var entry := fetch(categories, anchors[0]);
    YieldedBetween(entry.1, entry.0.value, Page(DropThree(categories), anchors[1..], fetch).0);
  }

  /** A page that fails fails with the error of its first failing dish, the
      one right after the dishes it yielded. */
  lemma {:induction false} PageError(categories: seq<string>, anchors: seq<Anchor>, fetch: DishFetch)
    ensures var foods := Yields(Page(categories, anchors, fetch).0);
            |foods| < |anchors| ==>
              var e := fetch(Nth(categories, |foods|), anchors[|foods|]).0;
              e.Err? && Page(categories, anchors, fetch).1 == Err(e.error)
    decreases |anchors|
  {
    if anchors != [] {
      PageStep(categories, anchors, fetch);
      var entry := fetch(categories, anchors[0]);
      assert Nth(categories, 0) == categories;
      if entry.0.Ok? {
        var rest := DropThree(categories);
        var tail := Page(rest, anchors[1..], fetch);
        PageError(rest, anchors[1..], fetch);
        YieldedBetween(entry.1, entry.0.value, tail.0);
        var i := |Yields(tail.0)|;
        if i < |anchors[1..]| {
          NthShift(categories, i);
          assert anchors[i + 1] == anchors[1..][i];
        }
      } else {
        assert Yields(Page(categories, anchors, fetch).0) == [];
      }
    }
  }

  /** The category cells left for the k-th dish of a page. */
  function Nth(categories: seq<string>, k: nat): seq<string>
  {
    if 3 * k < |categories| then categories[3 * k..] else []
  }

  /** Dropping three cells k+1 times is dropping three cells, then k times. */
  lemma NthShift(categories: seq<string>, k: nat)
    ensures Nth(categories, k + 1) == Nth(DropThree(categories), k)
  {
    if 3 <= |categories| {
      assert DropThree(categories) == categories[3..];
      if 3 * (k + 1) < |categories| {
        assert categories[3..][3 * k..] == categories[3 * (k + 1)..];
      }
    }
  }

  /** The k-th dish a successful page of the scraper yields is the dish of
      its k-th anchor, with category cells 3k and 3k+1 as its labels; there
      is one dish per anchor. */
  lemma PageDishes(categories: seq<string>, anchors: seq<Anchor>, detail: DetailRequest -> DetailResponse)
    requires Page(categories, anchors, Fetch(detail)).1.Ok?
    ensures var foods := Yields(Page(categories, anchors, Fetch(detail)).0);
            && |foods| == |anchors|
            && forall k :: 0 <= k < |anchors| ==> DishOf(foods[k], categories, k, anchors[k], detail)
  {
    PageCount(categories, anchors, Fetch(detail));
    PageFoods(categories, anchors, Fetch(detail));
    var foods := Yields(Page(categories, anchors, Fetch(detail)).0);
    forall k | 0 <= k < |anchors| ensures DishOf(foods[k], categories, k, anchors[k], detail) {
      var rest := Nth(categories, k);
      assert FoodEntry(rest, anchors[k], detail).0 == Ok(foods[k]);
      FoodEntryMeaning(rest, anchors[k], detail);
    }
  }

  /** One step of the listing: page `n` is requested, then its dishes are
      made, and the next page follows only when this one had anchors and
      none of its dishes failed. */
  lemma ListingStep(listing: nat -> ListingResponse, fetch: DishFetch, n: nat, last: nat)
    requires 1 <= n <= last && EndsListing(listing(last))
    ensures listing(n).ListingFailed? ==> ListingFrom(listing, fetch, n, last) == ([ListRequested(n)], Err(TransportError))
    ensures listing(n).ListingPage? ==>
              var page := Page(listing(n).categories, listing(n).anchors, fetch);
              if page.1.Err? || |listing(n).anchors| == 0 then
                ListingFrom(listing, fetch, n, last) == ([ListRequested(n)] + page.0, page.1)
              else
                && n < last
                && ListingFrom(listing, fetch, n, last) ==
                   ([ListRequested(n)] + page.0 + ListingFrom(listing, fetch, n + 1, last).0, ListingFrom(listing, fetch, n + 1, last).1)
  {
  }

  /** Whether the listing goes on after page `n`: the page was served, had
      anchors, and every dish on it was made. */
  predicate Continues(listing: nat -> ListingResponse, fetch: DishFetch, n: nat)
  {
    && listing(n).ListingPage?
    && |listing(n).anchors| > 0
    && Page(listing(n).categories, listing(n).anchors, fetch).1.Ok?
  }

  /** The listing pages requested from page `n` on: page `n`, then those
      from page `n + 1` on if the listing continues. */
  lemma ListingRequests(listing: nat -> ListingResponse, fetch: DishFetch, n: nat, last: nat)
    requires 1 <= n <= last && EndsListing(listing(last))
    ensures var run := ListingFrom(listing, fetch, n, last);
            if Continues(listing, fetch, n) then
              && n < last
              && RequestedPages(run.0) == [n] + RequestedPages(ListingFrom(listing, fetch, n + 1, last).0)
              && run.1 == ListingFrom(listing, fetch, n + 1, last).1
            else
              && RequestedPages(run.0) == [n]
              && (run.1.Ok? ==> listing(n).ListingPage? && listing(n).anchors == [])
  {
    ListingStep(listing, fetch, n, last);
    var response := listing(n);
    assert RequestedPages([ListRequested(n)]) == [n];
    if response.ListingPage? {
      var page := Page(response.categories, response.anchors, fetch);
      PageRequestsNone(response.categories, response.anchors, fetch);
      RequestedPagesAppend([ListRequested(n)], page.0);
      if Continues(listing, fetch, n) {
        RequestedPagesAppend([ListRequested(n)] + page.0, ListingFrom(listing, fetch, n + 1, last).0);
      }
    }
  }

  /** Listing pages are requested as n, n+1, n+2, ..., never beyond the
      page that ends the listing. */
  lemma {:induction false} ListingPages(listing: nat -> ListingResponse, fetch: DishFetch, n: nat, last: nat)
    requires 1 <= n <= last && EndsListing(listing(last))
    ensures var pages := RequestedPages(ListingFrom(listing, fetch, n, last).0);
            && 1 <= |pages| && n + |pages| - 1 <= last
            && forall j :: 0 <= j < |pages| ==> pages[j] == n + j
    decreases last - n
  {
    ListingRequests(listing, fetch, n, last);
    if Continues(listing, fetch, n) {
      ListingPages(listing, fetch, n + 1, last);
      var pages := RequestedPages(ListingFrom(listing, fetch, n, last).0);
      var tail := RequestedPages(ListingFrom(listing, fetch, n + 1, last).0);
      forall j | 1 <= j < |pages| ensures pages[j] == n + j {
        assert pages[j] == tail[j - 1];
      }
    }
  }

  /** The listing goes on only past pages with anchors: every page
      requested before the last one had dish anchors. */
  lemma {:induction false} ListingContinues(listing: nat -> ListingResponse, fetch: DishFetch, n: nat, last: nat)
    requires 1 <= n <= last && EndsListing(listing(last))
    ensures forall p :: n <= p < n + |RequestedPages(ListingFrom(listing, fetch, n, last).0)| - 1 ==> !EndsListing(listing(p))
    decreases last - n
  {
    ListingRequests(listing, fetch, n, last);
    if Continues(listing, fetch, n) {
      ListingContinues(listing, fetch, n + 1, last);
    }
  }

  /** A run of the listing that ends without error ends at the first page
      with no anchors. */
  lemma {:induction false} ListingEndsEmpty(listing: nat -> ListingResponse, fetch: DishFetch, n: nat, last: nat)
    requires 1 <= n <= last && EndsListing(listing(last))
    ensures var run := ListingFrom(listing, fetch, n, last);
            var m := n + |RequestedPages(run.0)| - 1;
            run.1.Ok? ==> listing(m).ListingPage? && listing(m).anchors == []
    decreases last - n
  {
    ListingRequests(listing, fetch, n, last);
    if Continues(listing, fetch, n) {
      ListingEndsEmpty(listing, fetch, n + 1, last);
    }
  }

  /** A listing whose first page has no anchors yields nothing and makes
      exactly one page request. */
  lemma EmptyFirstPage(listing: nat -> ListingResponse, detail: DetailRequest -> DetailResponse, last: nat)
    requires 1 <= last && EndsListing(listing(last))
    requires listing(1).ListingPage? && listing(1).anchors == []
    ensures Listing(listing, detail, last) == ([ListRequested(1)], Ok(()))
  {
    assert Page(listing(1).categories, [], Fetch(detail)) == ([], Ok(()));
    assert [ListRequested(1)] + [] == [ListRequested(1)];
  }

  /** The merge of rows is the merge of the first row, then of the others. */
  lemma MergeRowsFirst(acc: map<string, seq<string>>, rows: seq<Cells>)
    requires rows != []
    ensures MergeRows(acc, rows) ==
            if MergeRow(acc, rows[0]).Err? then Err(MergeRow(acc, rows[0]).error)
            else MergeRows(MergeRow(acc, rows[0]).value, rows[1..])
  {
  }

  /** One page of the analysis: it is requested, and its rows merged. */
  lemma AnalysisStep(code: string, detail: DetailRequest -> DetailResponse, page: nat, acc: map<string, seq<string>>)
    requires 1 <= page <= DetailPages
    ensures var request := AnalysisRequest(code, page);
            var run := AnalysisFrom(code, detail, page, acc);
            && (detail(request).DetailFailed? ==> run == (Err(TransportError), [request]))
            && (detail(request).DetailPage? ==>
                  var merged := MergeRows(acc, WithoutTotal(detail(request).rows));
                  && (merged.Err? ==> run == (Err(merged.error), [request]))
                  && (merged.Ok? ==>
                        run == (AnalysisFrom(code, detail, page + 1, merged.value).0,
                                [request] + AnalysisFrom(code, detail, page + 1, merged.value).1)))
  {
  }

  lemma AppendAssociates<T>(a: seq<T>, b: seq<T>, c: seq<T>)
    ensures a + (b + c) == a + b + c
  {
  }

  // ---------------------------------------------------------------------
  // The scraper itself
  // ---------------------------------------------------------------------

  /** The row loop of one page: each row is merged in turn into `acc`, and
      the first row that cannot be merged ends the fetch with its error. */
  method MergePage(acc: map<string, seq<string>>, rows: seq<Cells>) returns (merged: Result<map<string, seq<string>>>)
    ensures merged == MergeRows(acc, rows)
  {
    var table := acc;
    for i := 0 to |rows|
      invariant MergeRows(acc, rows) == MergeRows(table, rows[i..])
    {
      MergeRowsFirst(table, rows[i..]);
      assert rows[i..][0] == rows[i] && rows[i..][1..] == rows[i + 1..];
      var data := rows[i];
      if |data| == 0 {
        return Err(IndexError);
      }
      ghost var step := MergeRow(table, data);
      if data[0] !in table {
        if |data| < 2 {
          return Err(IndexError);
        }
        table := table[data[0] := [data[1]]];
      }
      table := table[data[0] := table[data[0]] + Rest(data)];
      assert table == step.value;
    }
    assert rows[|rows|..] == [];
    return Ok(table);
  }

  /** One page of the analysis: the request for page `n`, and its rows
      without the total merged into `acc`. */
  method FetchPage(code: string, detail: DetailRequest -> DetailResponse, n: nat, acc: map<string, seq<string>>)
    returns (next: Result<map<string, seq<string>>>, request: DetailRequest)
    requires 1 <= n <= DetailPages
    ensures request == AnalysisRequest(code, n)
    ensures next.Err? ==> AnalysisFrom(code, detail, n, acc) == (Err(next.error), [request])
    ensures next.Ok? ==>
              AnalysisFrom(code, detail, n, acc)
              == (AnalysisFrom(code, detail, n + 1, next.value).0, [request] + AnalysisFrom(code, detail, n + 1, next.value).1)
  {
    AnalysisStep(code, detail, n, acc);
    request := AnalysisRequest(code, n);
    var response := detail(request);
    if response.DetailFailed? {
      return Err(TransportError), request;
    }
    next := MergePage(acc, WithoutTotal(response.rows));
  }

  /** Fetches both pages of the analysis of dish `code` and merges their
      rows, the total row of each page left out. */
  method GetFoodAnalysis(code: string, detail: DetailRequest -> DetailResponse)
    returns (result: Result<map<string, seq<string>>>, requests: seq<DetailRequest>)
    ensures (result, requests) == Analysis(code, detail)
  {
    var acc: map<string, seq<string>> := map[];
    requests := [];
    assert requests + AnalysisFrom(code, detail, 1, acc).1 == AnalysisFrom(code, detail, 1, acc).1;
    for n := 1 to DetailPages + 1
      invariant Analysis(code, detail).0 == AnalysisFrom(code, detail, n, acc).0
      invariant Analysis(code, detail).1 == requests + AnalysisFrom(code, detail, n, acc).1
    {
      ghost var before := requests;
      var next, request := FetchPage(code, detail, n, acc);
      requests := requests + [request];
      if next.Err? {
        return Err(next.error), requests;
      }
      acc := next.value;
      AppendAssociates(before, [request], AnalysisFrom(code, detail, n + 1, acc).1);
    }
    assert AnalysisFrom(code, detail, DetailPages + 1, acc) == (Ok(acc), []);
    assert requests + [] == requests;
    return Ok(acc), requests;
  }

  /** Makes the dish of one anchor: its name, its two category labels and
      its nutrient table, fetched through its meal code. */
  method FetchDish(categories: seq<string>, anchor: Anchor, detail: DetailRequest -> DetailResponse)
    returns (dish: Result<Food>, requests: seq<DetailRequest>)
    ensures (dish, requests) == FoodEntry(categories, anchor, detail)
  {
    var food := NewFood(Text.Strip(anchor.text));
    if |categories| < 2 {
      return Err(IndexError), [];
    }
    food := food.(categoryBig := categories[0], categorySmall := categories[1]);
    var code := MealCode(anchor.href);
    if code.Err? {
      return Err(code.error), [];
    }
    var aliment;
    aliment, requests := GetFoodAnalysis(code.value, detail);
    if aliment.Err? {
      return Err(aliment.error), requests;
    }
    food := food.(aliment := aliment.value);
    return Ok(food), requests;
  }

  /** Makes and yields the dishes of one listing page in turn, the category
      cells consumed three per dish; `found` tells whether the page had any
      dish anchor. */
  method GetPageDishes(categories: seq<string>, anchors: seq<Anchor>, detail: DetailRequest -> DetailResponse)
    returns (events: seq<Event>, r: Result<()>, found: bool)
    ensures (events, r) == Page(categories, anchors, Fetch(detail))
    ensures found <==> anchors != []
  {
    ghost var fetch := Fetch(detail);
    ghost var page := Page(categories, anchors, fetch);
    var rest := categories;
    found := false;
    events := [];
    assert events + Page(rest, anchors[0..], fetch).0 == page.0 by {
      assert anchors[0..] == anchors;
    }
    for i := 0 to |anchors|
      invariant found <==> i > 0
      invariant page.0 == events + Page(rest, anchors[i..], fetch).0
      invariant page.1 == Page(rest, anchors[i..], fetch).1
    {
      PageStep(rest, anchors[i..], fetch);
      assert anchors[i..][0] == anchors[i] && anchors[i..][1..] == anchors[i + 1..];
      var dish, requests := FetchDish(rest, anchors[i], detail);
      found := true;
      ghost var before := events;
      events := events + DetailEvents(requests);
      if dish.Err? {
        return events, Err(dish.error), found;
      }
      ghost var tail := Page(DropThree(rest), anchors[i + 1..], fetch);
      AppendAssociates(before, DetailEvents(requests), [Yielded(dish.value)]);
      AppendAssociates(before, DetailEvents(requests) + [Yielded(dish.value)], tail.0);
      events := events + [Yielded(dish.value)];
      rest := DropThree(rest);
    }
    assert anchors[|anchors|..] == [];
    assert events + [] == events;
    return events, Ok(()), found;
  }

  /** Walks the listing from page 1, making and yielding the dishes of each
      page in turn, until a page has no dish anchors. `last` is a page that
      ends the listing. */
  method GetFoodList(listing: nat -> ListingResponse, detail: DetailRequest -> DetailResponse, ghost last: nat)
    returns (trace: seq<Event>, r: Result<()>)
    requires 1 <= last && EndsListing(listing(last))
    ensures (trace, r) == Listing(listing, detail, last)
  {
    ghost var fetch := Fetch(detail);
    ghost var run := ListingFrom(listing, fetch, 1, last);
    var n := 1;
    trace := [];
    assert trace + ListingFrom(listing, fetch, n, last).0 == run.0;
    while true
      invariant 1 <= n <= last
      invariant run.0 == trace + ListingFrom(listing, fetch, n, last).0
      invariant run.1 == ListingFrom(listing, fetch, n, last).1
      decreases last - n
    {
      ListingStep(listing, fetch, n, last);
      ghost var before := trace;
      trace := trace + [ListRequested(n)];
      var response := listing(n);
      if response.ListingFailed? {
        return trace, Err(TransportError);
      }
      var events, outcome, found := GetPageDishes(response.categories, response.anchors, detail);
      AppendAssociates(before, [ListRequested(n)], events);
      trace := trace + events;
      if outcome.Err? || !found {
        return trace, outcome;
      }
      AppendAssociates(before, [ListRequested(n)] + events, ListingFrom(listing, fetch, n + 1, last).0);
      n := n + 1;
    }
  }
}
