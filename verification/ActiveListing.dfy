/** Walking the paginated listing of a project's active work items. */
module ActiveListing {
  import opened Common

  const LIST_PAGE_BUDGET := 100

  // One element of `items`: an object with optional id and slug, or something that is not an object.
  datatype Item = Object(id: Option<string>, slug: Option<string>) | NotObject

  datatype Cursor = Null | Text(text: string) | OtherType

  // What one request answers. `items` is None when the response carries no items array.
  datatype Page = Failed | Response(items: Option<seq<Item>>, next: Cursor)

  // A server, as seen by one walk: what it answers to the nth request, given its cursor.
  type Server = (nat, string) -> Page

  datatype ListError = RequestFailed(page: nat) | NoItems(page: nat) | BadCursor(page: nat) | Repeated(page: nat) | BudgetSpent

  function Objects(items: seq<Item>): seq<Item> {
    if items == [] then []
    else Objects(items[..|items| - 1]) + if items[|items| - 1].Object? then [items[|items| - 1]] else []
  }

  /** Exactly the elements that are objects are kept, as often as they stand there. */
  lemma {:induction false} ObjectsAre(items: seq<Item>, m: Item)
    ensures multiset(Objects(items))[m] == if m == NotObject then 0 else multiset(items)[m]
  {
    if items != [] {
      var before, last := items[..|items| - 1], items[|items| - 1];
      assert items == before + [last];
      ObjectsAre(before, m);
    }
  }

  /** ... and in their order: a list of objects is kept as it is, and lists are kept one after the other. */
  lemma {:induction false} AllObjects(items: seq<Item>)
    requires NotObject !in items
    ensures Objects(items) == items
  {
    if items != [] { AllObjects(items[..|items| - 1]); }
  }

  lemma OneMoreObject(items: seq<Item>, i: nat)
    requires i <= |items|
    ensures Objects([]) == []
    ensures i < |items| ==> Objects(items[..i + 1]) == Objects(items[..i]) + if items[i].Object? then [items[i]] else []
  {
    if i < |items| { assert items[..i + 1][..i] == items[..i]; }
  }

  lemma {:induction false} ObjectsConcat(a: seq<Item>, b: seq<Item>)
    ensures Objects(a + b) == Objects(a) + Objects(b)
  {
    if b == [] {
      assert a + b == a;
    } else {
      assert (a + b)[..|a + b| - 1] == a + b[..|b| - 1];
      ObjectsConcat(a, b[..|b| - 1]);
    }
  }

  // ---------------------------------------------------------------- the chain of pages

  // The cursor sent with request k, following the chain from the empty cursor.
  function CursorAt(server: Server, k: nat): string
    requires k >= 1
  {
    if k == 1 then ""
    else
      var page := server(k - 1, CursorAt(server, k - 1));
      if page.Response? && page.next.Text? then page.next.text else ""
  }

  function PageAt(server: Server, k: nat): Page
    requires k >= 1
  {
    server(k, CursorAt(server, k))
  }

  predicate WellFormed(p: Page) { p.Response? && p.items.Some? && !p.next.OtherType? }

  predicate Last(p: Page) { WellFormed(p) && (p.next.Null? || p.next.text == "") }

  // Page k hands over a further cursor, different from the one it was asked with.
  predicate Continues(server: Server, k: nat)
    requires k >= 1
  {
    var p := PageAt(server, k);
    WellFormed(p) && !Last(p) && p.next.text != CursorAt(server, k)
  }

  // The chain ends properly at page n.
  predicate EndsAt(server: Server, n: nat)
    requires n >= 1
  {
    Last(PageAt(server, n)) && forall k :: 1 <= k < n ==> Continues(server, k)
  }

  // The objects of pages 1 to n, in order.
  function ObjectsThrough(server: Server, n: nat): seq<Item> {
    if n == 0 then []
    else
      var p := PageAt(server, n);
      ObjectsThrough(server, n - 1) + if p.Response? && p.items.Some? then Objects(p.items.value) else []
  }

  // ---------------------------------------------------------------- the chain, written out

  /** The first request carries no cursor, and each further one the text the page before handed over. */
  lemma CursorsAre(server: Server, k: nat, items: Option<seq<Item>>, text: string)
    requires k >= 1 && server(k, CursorAt(server, k)) == Response(items, Text(text))
    ensures CursorAt(server, 1) == "" && CursorAt(server, k + 1) == text
  {
  }

  // Page k has items and hands over a cursor that is neither empty nor the one it was asked with.
  predicate HandsOver(server: Server, k: nat)
    requires k >= 1
  {
    var p := server(k, CursorAt(server, k));
    && p.Response? && p.items.Some? && p.next == Text(CursorAt(server, k + 1))
    && CursorAt(server, k + 1) != "" && CursorAt(server, k + 1) != CursorAt(server, k)
  }

  /** The chain ends at page n exactly when that page has items and hands over no cursor, and every
      page before it hands over a new one. */
  lemma EndsAtIff(server: Server, n: nat)
    requires n >= 1
    ensures var p := server(n, CursorAt(server, n));
            EndsAt(server, n) <==>
            && p.Response? && p.items.Some? && (p.next == Null || p.next == Text(""))
            && forall k :: 1 <= k < n ==> HandsOver(server, k)
  {
    forall k | 1 <= k < n ensures Continues(server, k) <==> HandsOver(server, k) { ContinuesIff(server, k); }
  }

  lemma ContinuesIff(server: Server, k: nat)
    requires k >= 1
    ensures Continues(server, k) <==> HandsOver(server, k)
  {
  }

  // An object that one of the first n pages of the chain lists.
  predicate ListedBy(server: Server, n: nat, m: Item) {
    m.Object? && exists k :: 1 <= k <= n && PageAt(server, k).Response? && PageAt(server, k).items.Some? && m in PageAt(server, k).items.value
  }

  lemma {:induction false} ThroughAre(server: Server, n: nat)
    ensures forall m :: m in ObjectsThrough(server, n) <==> ListedBy(server, n, m)
  {
    hide PageAt;
    if n > 0 {
      ThroughAre(server, n - 1);
      var p := PageAt(server, n);
      if p.Response? && p.items.Some? { ObjectsIn(p.items.value); }
    }
  }

  lemma ObjectsIn(items: seq<Item>)
    ensures forall m :: m in Objects(items) <==> m.Object? && m in items
  {
    forall m ensures m in Objects(items) <==> m.Object? && m in items {
      ObjectsAre(items, m);
      assert m in Objects(items) <==> multiset(Objects(items))[m] > 0;
      assert m in items <==> multiset(items)[m] > 0;
    }
  }

  /** All or error. The walk makes at most 100 requests; it succeeds exactly when
      the chain ends within that many pages, and then returns the objects of every
      page of it. It never returns part of a listing. */
  method FetchActiveWorkItems(server: Server) returns (r: Result<seq<Item>, ListError>, requests: nat)
    ensures requests <= 100
    ensures r.Ok? <==> exists n :: 1 <= n <= 100 && EndsAt(server, n)
    ensures r.Ok? ==> requests >= 1 && EndsAt(server, requests) && r.value == ObjectsThrough(server, requests)
    // What is returned, without the function: whatever object some page of the chain lists, and nothing else.
    ensures r.Ok? ==> forall m :: m in r.value <==> ListedBy(server, requests, m)
    ensures r.Err? && !r.error.BudgetSpent? ==> requests >= 1 && r.error.page == requests && !Last(PageAt(server, requests)) && !Continues(server, requests)
    ensures r.Err? && r.error.BudgetSpent? ==> forall k :: 1 <= k <= 100 ==> Continues(server, k)
  {
    hide ListedBy, Objects;
    var out: seq<Item> := [];
    var cursor := "";
    requests := 0;
    for page := 1 to LIST_PAGE_BUDGET + 1
      invariant requests == page - 1
      invariant cursor == CursorAt(server, page)
      invariant out == ObjectsThrough(server, page - 1)
      invariant forall k :: 1 <= k < page ==> Continues(server, k)
    {
      var result := server(page, cursor);
      assert result == PageAt(server, page);
      requests := requests + 1;
      if Last(result) { assert EndsAt(server, page); ThroughAre(server, page); }
      if !WellFormed(result) || (!Last(result) && !Continues(server, page)) { StopsHere(server, page); }
      if result.Failed? { return Err(RequestFailed(page)), requests; }
      if result.items.None? { return Err(NoItems(page)), requests; }
      var items := result.items.value;
      ghost var before := out;
      OneMoreObject([], 0);
      for i := 0 to |items|
        invariant out == before + Objects(items[..i])
      {
        OneMoreObject(items, i);
        if items[i].Object? { out := out + [items[i]]; }
      }
      assert items[..|items|] == items;
      match result.next
      case Null => return Ok(out), requests;
      case OtherType => return Err(BadCursor(page)), requests;
      case Text(next) =>
        if next == "" { return Ok(out), requests; }
        if next == cursor { return Err(Repeated(page)), requests; }
        cursor := next;
    }
    forall n | 1 <= n <= LIST_PAGE_BUDGET ensures !EndsAt(server, n) { assert Continues(server, n); }
    return Err(BudgetSpent), requests;
  }

  // A page that neither ends nor continues the chain leaves it without an end.
  lemma StopsHere(server: Server, page: nat)
    requires page >= 1 && !Last(PageAt(server, page)) && !Continues(server, page)
    requires forall k :: 1 <= k < page ==> Continues(server, k)
    ensures forall n :: n >= 1 ==> !EndsAt(server, n)
  {
    forall n | n >= 1 ensures !EndsAt(server, n) {
      if n < page { assert Continues(server, n); }
    }
  }

  /** The chain has at most one end, so a listing has at most one complete answer. */
  lemma EndIsUnique(server: Server, m: nat, n: nat)
    requires m >= 1 && n >= 1 && EndsAt(server, m) && EndsAt(server, n)
    ensures m == n
  {
    assert m < n ==> Continues(server, m);
    assert n < m ==> Continues(server, n);
  }

  // A server that answers by cursor alone.
  ghost predicate Stationary(server: Server) {
    forall i: nat, j: nat, c: string :: server(i, c) == server(j, c)
  }

  lemma {:induction false} CycleRepeats(server: Server, a: nat, b: nat, k: nat)
    requires Stationary(server) && 1 <= a < b && CursorAt(server, a) == CursorAt(server, b)
    ensures CursorAt(server, a + k) == CursorAt(server, b + k)
    ensures PageAt(server, a + k) == PageAt(server, b + k)
  {
    if k > 0 { CycleRepeats(server, a, b, k - 1); }
  }

  /** A cursor that comes back while the walk is going on means the chain never ends,
      however long the cycle is: the walk, which succeeds only at an end, reports an error. */
  lemma CyclesNeverEnd(server: Server, a: nat, b: nat)
    requires Stationary(server) && 1 <= a < b && CursorAt(server, a) == CursorAt(server, b)
    requires forall k :: 1 <= k < b ==> Continues(server, k)
    ensures forall n :: n >= 1 ==> !EndsAt(server, n)
  {
    forall n | n >= 1 ensures !EndsAt(server, n) { NoEndIn(server, a, b, n); }
  }

  lemma {:induction false} NoEndIn(server: Server, a: nat, b: nat, n: nat)
    requires Stationary(server) && 1 <= a < b && CursorAt(server, a) == CursorAt(server, b)
    requires forall k :: 1 <= k < b ==> Continues(server, k)
    requires n >= 1
    ensures !EndsAt(server, n)
  {
    if n < b {
      assert Continues(server, n);
    } else {
      var back := n - (b - a);
      CycleRepeats(server, a, b, n - b);
      assert PageAt(server, back) == PageAt(server, n);
      assert EndsAt(server, n) ==> Continues(server, back);
    }
  }
}
