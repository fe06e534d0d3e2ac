/** The full-text index over `memories` and the three triggers that maintain it.
    The index is external-content: it stores postings, not texts, so an entry can
    only be removed by being told the text it was made from. */
module FtsIndex {
  import opened Common

  datatype Posting = Posting(token: string, row: RowId)

  type Index = multiset<Posting>
  type Tokenizer = string -> seq<string>

  function TokenPostings(tokens: seq<string>, row: RowId): Index {
    if tokens == [] then multiset{}
    else TokenPostings(tokens[..|tokens| - 1], row) + multiset{Posting(tokens[|tokens| - 1], row)}
  }

  // The postings of one row: each token, as often as it occurs.
  function RowPostings(tok: Tokenizer, row: RowId, content: string): Index { TokenPostings(tok(content), row) }

  lemma HasRow(rows: map<RowId, string>)
    requires rows != map[]
    ensures exists r :: r in rows
  {
  }

  ghost function SomeRow(rows: map<RowId, string>): (r: RowId)
    requires rows != map[]
    ensures r in rows && |rows - {r}| < |rows|
  {
    HasRow(rows);
    var r :| r in rows;
    assert rows.Keys == (rows - {r}).Keys + {r};
    r
  }

  // The index built from scratch, row after row in some order.
  ghost function Build(tok: Tokenizer, rows: map<RowId, string>): Index
    decreases |rows|
  {
    if rows == map[] then multiset{}
    else
      var r := SomeRow(rows);
      Build(tok, rows - {r}) + RowPostings(tok, r, rows[r])
  }

  /** A reference definition by counting: each posting is held as often as its
      token occurs in the current text of its row, and no other row is indexed. */
  ghost predicate Agrees(tok: Tokenizer, index: Index, rows: map<RowId, string>) {
    forall p: Posting :: index[p] == Expected(tok, rows, p)
  }

  function Expected(tok: Tokenizer, rows: map<RowId, string>, p: Posting): nat {
    if p.row in rows then multiset(tok(rows[p.row]))[p.token] else 0
  }

  lemma {:induction false} TokenPostingsCount(tokens: seq<string>, row: RowId, p: Posting)
    ensures TokenPostings(tokens, row)[p] == if p.row == row then multiset(tokens)[p.token] else 0
  {
    if tokens != [] {
      var init, last := tokens[..|tokens| - 1], tokens[|tokens| - 1];
      TokenPostingsCount(init, row, p);
      assert tokens == init + [last];
    }
  }

  lemma {:induction false} BuildAgrees(tok: Tokenizer, rows: map<RowId, string>)
    ensures Agrees(tok, Build(tok, rows), rows)
    decreases |rows|
  {
    if rows != map[] {
      var r := SomeRow(rows);
      BuildAgrees(tok, rows - {r});
      forall p: Posting ensures Build(tok, rows)[p] == Expected(tok, rows, p) {
        TokenPostingsCount(tok(rows[r]), r, p);
        assert Build(tok, rows - {r})[p] == Expected(tok, rows - {r}, p);
      }
    }
  }

  /** Rebuilding is the only index that agrees with the rows. */
  lemma AgreesIsBuild(tok: Tokenizer, index: Index, rows: map<RowId, string>)
    ensures Agrees(tok, index, rows) <==> index == Build(tok, rows)
  {
    BuildAgrees(tok, rows);
    if Agrees(tok, index, rows) {
      forall p: Posting ensures index[p] == Build(tok, rows)[p] {}
      assert index == Build(tok, rows);
    }
  }

  // ---------------------------------------------------------------- the table and its triggers

  datatype Write = Insert(row: RowId, content: string) | UpdateContent(row: RowId, content: string) | Delete(row: RowId)

  datatype Table = Table(rows: map<RowId, string>, index: Index)

  // One write and the trigger it fires. A write that matches no row, or an insert of a taken row id, does nothing.
  function Apply(tok: Tokenizer, t: Table, w: Write): Table {
    match w
    case Insert(r, c) =>
      if r in t.rows then t else Table(t.rows[r := c], t.index + RowPostings(tok, r, c))
    case UpdateContent(r, c) =>
      if r !in t.rows then t
      else Table(t.rows[r := c], t.index - RowPostings(tok, r, t.rows[r]) + RowPostings(tok, r, c))
    case Delete(r) =>
      if r !in t.rows then t else Table(t.rows - {r}, t.index - RowPostings(tok, r, t.rows[r]))
  }

  function ApplyAll(tok: Tokenizer, t: Table, ws: seq<Write>): Table {
    if ws == [] then t else Apply(tok, ApplyAll(tok, t, ws[..|ws| - 1]), ws[|ws| - 1])
  }

  /** `memories` with its index, as the database updates them in place. */
  class Memories {
    const tok: Tokenizer
    var rows: map<RowId, string>
    var index: Index

    ghost function Contents(): Table reads this { Table(rows, index) }

    constructor (tok: Tokenizer)
      ensures this.tok == tok && Contents() == Table(map[], multiset{})
    {
      this.tok := tok;
      rows, index := map[], multiset{};
    }

    method InsertRow(row: RowId, content: string)
      modifies this
      ensures Contents() == Apply(tok, old(Contents()), Insert(row, content))
      ensures rows == if row in old(rows) then old(rows) else old(rows)[row := content]
      ensures old(Agrees(tok, index, rows)) ==> Agrees(tok, index, rows)
    {
      if Agrees(tok, index, rows) { ApplyAgrees(tok, Contents(), Insert(row, content)); }
      if row in rows { return; }
      rows := rows[row := content];
      index := index + RowPostings(tok, row, content);  // memories_fts_ai
    }

    method UpdateRow(row: RowId, content: string)
      modifies this
      ensures Contents() == Apply(tok, old(Contents()), UpdateContent(row, content))
      ensures rows == if row in old(rows) then old(rows)[row := content] else old(rows)
      ensures old(Agrees(tok, index, rows)) ==> Agrees(tok, index, rows)
    {
      if Agrees(tok, index, rows) { ApplyAgrees(tok, Contents(), UpdateContent(row, content)); }
      if row !in rows { return; }
      var before := rows[row];
      rows := rows[row := content];
      index := index - RowPostings(tok, row, before);   // memories_fts_au
      index := index + RowPostings(tok, row, content);
    }

    method DeleteRow(row: RowId)
      modifies this
      ensures Contents() == Apply(tok, old(Contents()), Delete(row))
      ensures rows == old(rows) - {row}
      ensures old(Agrees(tok, index, rows)) ==> Agrees(tok, index, rows)
    {
      if Agrees(tok, index, rows) { ApplyAgrees(tok, Contents(), Delete(row)); }
      if row !in rows { return; }
      var before := rows[row];
      rows := rows - {row};
      index := index - RowPostings(tok, row, before);   // memories_fts_ad
    }

    // 'rebuild' reads the rows in the order of a table scan.
    method Rebuild(scan: seq<RowId>)
      requires forall r :: r in scan <==> r in rows
      requires forall i, j :: 0 <= i < j < |scan| ==> scan[i] != scan[j]
      modifies this
      ensures rows == old(rows)
      ensures index == Build(tok, rows)
    {
      index := Reindex(tok, rows, scan);
      AgreesIsBuild(tok, index, rows);
    }
  }

  method Reindex(tok: Tokenizer, rows: map<RowId, string>, scan: seq<RowId>) returns (index: Index)
    requires forall r :: r in scan <==> r in rows
    requires forall i, j :: 0 <= i < j < |scan| ==> scan[i] != scan[j]
    ensures Agrees(tok, index, rows)
  {
    index := multiset{};
    ghost var done: map<RowId, string> := map[];
    for i := 0 to |scan|
      invariant forall r :: r in done <==> r in scan[..i]
      invariant forall r :: r in done ==> r in rows && done[r] == rows[r]
      invariant Agrees(tok, index, done)
    {
      var r := scan[i];
      assert r in scan && r !in scan[..i] && scan[..i + 1] == scan[..i] + [r];
      InsertAgrees(tok, Table(done, index), r, rows[r]);
      index := index + RowPostings(tok, r, rows[r]);
      done := done[r := rows[r]];
    }
    assert scan[..|scan|] == scan;
    SameMap(done, rows);
  }

  lemma SameMap(a: map<RowId, string>, b: map<RowId, string>)
    requires forall r :: r in a <==> r in b
    requires forall r :: r in a ==> a[r] == b[r]
    ensures a == b
  {
  }

  lemma InsertAgrees(tok: Tokenizer, t: Table, r: RowId, c: string)
    requires Agrees(tok, t.index, t.rows) && r !in t.rows
    ensures Agrees(tok, t.index + RowPostings(tok, r, c), t.rows[r := c])
  {
    var t' := Apply(tok, t, Insert(r, c));
    forall p: Posting ensures t'.index[p] == Expected(tok, t'.rows, p) {
      TokenPostingsCount(tok(c), r, p);
      assert t.index[p] == Expected(tok, t.rows, p);
    }
  }

  lemma {:induction false} ApplyAgrees(tok: Tokenizer, t: Table, w: Write)
    requires Agrees(tok, t.index, t.rows)
    ensures Agrees(tok, Apply(tok, t, w).index, Apply(tok, t, w).rows)
  {
    var t' := Apply(tok, t, w);
    forall p: Posting ensures t'.index[p] == Expected(tok, t'.rows, p) {
      assert t.index[p] == Expected(tok, t.rows, p);
      if w.row in t.rows { TokenPostingsCount(tok(t.rows[w.row]), w.row, p); }
      if !w.Delete? { TokenPostingsCount(tok(w.content), w.row, p); }
    }
  }

  /** Index agreement: from an index equal to a rebuild, every sequence of inserts,
      content updates and deletes leaves the index equal to a rebuild. */
  lemma {:induction false} WritesKeepAgreement(tok: Tokenizer, t: Table, ws: seq<Write>)
    requires t.index == Build(tok, t.rows)
    ensures ApplyAll(tok, t, ws).index == Build(tok, ApplyAll(tok, t, ws).rows)
  {
    if ws == [] {
    } else {
      var before := ApplyAll(tok, t, ws[..|ws| - 1]);
      WritesKeepAgreement(tok, t, ws[..|ws| - 1]);
      AgreesIsBuild(tok, before.index, before.rows);
      ApplyAgrees(tok, before, ws[|ws| - 1]);
      AgreesIsBuild(tok, ApplyAll(tok, t, ws).index, ApplyAll(tok, t, ws).rows);
    }
  }

  /** What a sequence of writes leaves in one row: what the last one did that concerned it. */
  lemma {:induction false} LastWriteStands(tok: Tokenizer, t: Table, ws: seq<Write>, w: Write, r: RowId)
    ensures var before, after := ApplyAll(tok, t, ws).rows, ApplyAll(tok, t, ws + [w]).rows;
            && (w.row != r ==> (r in after <==> r in before) && (r in after ==> after[r] == before[r]))
            && (w == Delete(r) ==> r !in after)
            && (w.UpdateContent? && w.row == r ==> (r in after <==> r in before) && (r in after ==> after[r] == w.content))
            && (w.Insert? && w.row == r ==> r in after && after[r] == if r in before then before[r] else w.content)
  {
    assert (ws + [w])[..|ws|] == ws;
  }

  // The rows a one-token MATCH returns.
  function Match(index: Index, token: string): set<RowId> {
    set p | p in index && p.token == token :: p.row
  }

  /** So a token search is a scan of the current texts. */
  lemma MatchIsScan(tok: Tokenizer, rows: map<RowId, string>, token: string, r: RowId)
    ensures r in Match(Build(tok, rows), token) <==> r in rows && token in tok(rows[r])
  {
    BuildAgrees(tok, rows);
    var index := Build(tok, rows);
    if r in Match(index, token) {
      var p :| p in index && p.token == token && p.row == r;
      assert index[p] == Expected(tok, rows, p);
    }
    if r in rows && token in tok(rows[r]) {
      assert index[Posting(token, r)] == Expected(tok, rows, Posting(token, r));
      assert Posting(token, r) in index;
    }
  }

  /** On an index that does not agree, the update trigger heals the row it writes
      exactly when the index held no posting of that row beyond its old text;
      postings of other rows are never touched. */
  lemma UpdateHealsRow(tok: Tokenizer, t: Table, r: RowId, c: string)
    requires r in t.rows
    ensures var t' := Apply(tok, t, UpdateContent(r, c));
            && (forall p: Posting :: p.row != r ==> t'.index[p] == t.index[p])
            && ((forall p: Posting :: p.row == r ==> t'.index[p] == Expected(tok, t'.rows, p))
                <==> (forall p: Posting :: p.row == r ==> t.index[p] <= Expected(tok, t.rows, p)))
  {
    var t' := Apply(tok, t, UpdateContent(r, c));
    forall p: Posting
      ensures p.row != r ==> t'.index[p] == t.index[p]
      ensures p.row == r ==> (t'.index[p] == Expected(tok, t'.rows, p) <==> t.index[p] <= Expected(tok, t.rows, p))
    {
      TokenPostingsCount(tok(t.rows[r]), r, p);
      TokenPostingsCount(tok(c), r, p);
    }
  }
}
