/** Projections as renamings, and the rules that move filters below and renamings into each other
    (crates/adb-planner/src/physical.rs: build; crates/adb-exec/src/lib.rs: apply_rename). */
module Renamings {
  import opened Values
  import opened Expressions

  /** The given columns of a row. */
  function Restrict(row: Row, columns: seq<string>): Row { map c | c in columns :: Cell(row, c) }

  /** Source and output name. */
  type Renaming = seq<(string, string)>

  function Source(m: Renaming, alias: string): Option<string> {
    if m == [] then None else if m[0].1 == alias then Some(m[0].0) else Source(m[1..], alias)
  }

  function OutputNames(m: Renaming): (names: seq<string>)
    ensures |names| == |m| && forall i :: 0 <= i < |m| ==> names[i] == m[i].1
  {
    seq(|m|, i requires 0 <= i < |m| => m[i].1)
  }

  function RenameRow(m: Renaming, row: Row): Row {
    map a | a in OutputNames(m) && Source(m, a).Some? :: Cell(row, Source(m, a).value)
  }

  function RestrictAll(rows: seq<Row>, columns: seq<string>): (r: seq<Row>)
    ensures |r| == |rows| && forall i :: 0 <= i < |rows| ==> r[i] == Restrict(rows[i], columns)
  {
    seq(|rows|, i requires 0 <= i < |rows| => Restrict(rows[i], columns))
  }

  function RenameAll(m: Renaming, rows: seq<Row>): (r: seq<Row>)
    ensures |r| == |rows| && forall i :: 0 <= i < |rows| ==> r[i] == RenameRow(m, rows[i])
  {
    seq(|rows|, i requires 0 <= i < |rows| => RenameRow(m, rows[i]))
  }

  predicate NoRepeats(names: seq<string>) {
    forall i, j :: 0 <= i < j < |names| ==> names[i] != names[j]
  }

  ghost predicate AllIn(names: set<string>, columns: seq<string>) { forall c :: c in names ==> c in columns }

  ghost predicate SourcesWithin(m: Renaming, columns: seq<string>) { forall i :: 0 <= i < |m| ==> m[i].0 in columns }

  predicate IsIdentity(m: Renaming) { forall i :: 0 <= i < |m| ==> m[i].0 == m[i].1 }

  /** The alias-to-source mapping predicates are pushed through. */
  function Sources(m: Renaming): map<string, string> {
    map a | a in OutputNames(m) && Source(m, a).Some? :: Source(m, a).value
  }

  /** Applies `m` on top of the projection already there. */
  function Compose(existing: Renaming, m: Renaming): (r: Renaming)
    ensures |r| == |m| && forall i :: 0 <= i < |m| ==>
              r[i] == (match Source(existing, m[i].0) case Some(base) => base case None => m[i].0, m[i].1)
  {
    seq(|m|, i requires 0 <= i < |m| =>
      (match Source(existing, m[i].0) case Some(base) => base case None => m[i].0, m[i].1))
  }

  // ---------------------------------------------------------------- rewriting rules

  lemma {:induction false} FilterConjoin(ks: Kernels, e: Expr, p: Expr, rows: seq<Row>)
    ensures Filter(ks, Binary(And, e, p), rows) == Filter(ks, p, Filter(ks, e, rows))
  {
    if rows != [] {
      var n := |rows| - 1;
      FilterConjoin(ks, e, p, rows[..n]);
      BothSelect(ks, e, p, rows[n]);
      FilterAppend(ks, p, Filter(ks, e, rows[..n]), if Selects(ks, e, rows[n]) then [rows[n]] else []);
      hide Selects;
    }
  }

  lemma {:induction false} FilterAppend(ks: Kernels, p: Expr, a: seq<Row>, b: seq<Row>)
    ensures Filter(ks, p, a + b) == Filter(ks, p, a) + Filter(ks, p, b)
  {
    if b == [] {
      assert a + b == a;
    } else {
      assert (a + b)[..|a + b| - 1] == a + b[..|b| - 1];
      FilterAppend(ks, p, a, b[..|b| - 1]);
      hide Selects;
    }
  }

  lemma {:induction false} SourceFirst(m: Renaming, alias: string)
    ensures Source(m, alias).Some? <==> alias in OutputNames(m)
    ensures Source(m, alias).Some? ==> exists i :: 0 <= i < |m| && m[i] == (Source(m, alias).value, alias)
  {
    if m != [] && m[0].1 != alias {
      SourceFirst(m[1..], alias);
      assert OutputNames(m) == [m[0].1] + OutputNames(m[1..]);
      if Source(m[1..], alias).Some? {
        var i :| 0 <= i < |m[1..]| && m[1..][i] == (Source(m[1..], alias).value, alias);
        assert m[i + 1] == (Source(m, alias).value, alias);
      }
    }
  }

  lemma RenamedCell(m: Renaming, row: Row, alias: string)
    ensures Cell(RenameRow(m, row), alias) ==
            match Source(m, alias) case Some(source) => Cell(row, source) case None => Null
  {
    SourceFirst(m, alias);
  }

  /** A predicate over output names selects a renamed row exactly when the predicate pushed back onto
      the source names selects the row. */
  lemma RewriteSelects(ks: Kernels, p: Expr, m: Renaming, row: Row)
    requires Rewrite(p, Sources(m)).Some?
    ensures Selects(ks, Rewrite(p, Sources(m)).value, row) <==> Selects(ks, p, RenameRow(m, row))
  {
    forall c | c in Sources(m)
      ensures Cell(RenameRow(m, row), c) == Cell(row, Sources(m)[c])
    {
      RenamedCell(m, row, c);
    }
    RewriteEval(ks, p, Sources(m), row, RenameRow(m, row));
  }

  lemma RenameSnoc(m: Renaming, rows: seq<Row>, row: Row)
    ensures RenameAll(m, rows + [row]) == RenameAll(m, rows) + [RenameRow(m, row)]
  {
  }

  /** Filtering may move below a renaming. */
  lemma {:induction false} FilterBelowRename(ks: Kernels, p: Expr, m: Renaming, rows: seq<Row>)
    requires Rewrite(p, Sources(m)).Some?
    ensures Filter(ks, p, RenameAll(m, rows)) == RenameAll(m, Filter(ks, Rewrite(p, Sources(m)).value, rows))
  {
    if rows != [] {
      var n := |rows| - 1;
      FilterBelowRename(ks, p, m, rows[..n]);
      RewriteSelects(ks, p, m, rows[n]);
      assert RenameAll(m, rows)[..n] == RenameAll(m, rows[..n]);
      RenameSnoc(m, Filter(ks, Rewrite(p, Sources(m)).value, rows[..n]), rows[n]);
      hide Selects, RenameRow, Rewrite;
    }
  }

  lemma {:induction false} ComposeSource(existing: Renaming, m: Renaming, alias: string)
    ensures Source(Compose(existing, m), alias) ==
            match Source(m, alias)
            case None => None
            case Some(s) => Some(match Source(existing, s) case Some(base) => base case None => s)
  {
    if m != [] {
      assert Compose(existing, m)[1..] == Compose(existing, m[1..]);
      if m[0].1 != alias {
        ComposeSource(existing, m[1..], alias);
      }
    }
  }

  /** Two renamings in a row are their composition. */
  lemma RenameCompose(existing: Renaming, m: Renaming, row: Row)
    requires forall i :: 0 <= i < |m| ==> m[i].0 in OutputNames(existing)
    ensures RenameRow(m, RenameRow(existing, row)) == RenameRow(Compose(existing, m), row)
  {
    assert OutputNames(Compose(existing, m)) == OutputNames(m);
    forall a | a in OutputNames(m)
      ensures Source(m, a).Some? && Source(Compose(existing, m), a).Some?
      ensures Cell(RenameRow(existing, row), Source(m, a).value) == Cell(row, Source(Compose(existing, m), a).value)
    {
      SourceFirst(m, a);
      ComposeSource(existing, m, a);
      var i :| 0 <= i < |m| && m[i] == (Source(m, a).value, a);
      SourceFirst(existing, m[i].0);
      RenamedCell(existing, row, m[i].0);
    }
  }

  lemma RenameAllCompose(existing: Renaming, m: Renaming, rows: seq<Row>)
    requires forall i :: 0 <= i < |m| ==> m[i].0 in OutputNames(existing)
    ensures RenameAll(m, RenameAll(existing, rows)) == RenameAll(Compose(existing, m), rows)
  {
    forall i | 0 <= i < |rows|
      ensures RenameAll(m, RenameAll(existing, rows))[i] == RenameAll(Compose(existing, m), rows)[i]
    {
      RenameCompose(existing, m, rows[i]);
    }
  }

  lemma IdentityCell(m: Renaming, row: Row, c: string)
    requires IsIdentity(m) && c in OutputNames(m)
    ensures Cell(RenameRow(m, row), c) == Cell(row, c)
  {
    SourceFirst(m, c);
    RenamedCell(m, row, c);
  }

  // ---------------------------------------------------------------- restricting rows

  /** Filtering may move above a restriction to columns that include the predicate's. */
  lemma {:induction false} FilterRestrict(ks: Kernels, e: Expr, columns: seq<string>, rows: seq<Row>)
    requires AllIn(Columns(e), columns)
    ensures Filter(ks, e, RestrictAll(rows, columns)) == RestrictAll(Filter(ks, e, rows), columns)
  {
    if rows != [] {
      var n := |rows| - 1;
      FilterRestrict(ks, e, columns, rows[..n]);
      assert RestrictAll(rows, columns)[..n] == RestrictAll(rows[..n], columns);
      EvalDepends(ks, e, Restrict(rows[n], columns), rows[n]);
      RestrictSnoc(Filter(ks, e, rows[..n]), rows[n], columns);
      hide RestrictAll, Restrict, Eval;
    }
  }

  lemma RestrictSnoc(rows: seq<Row>, row: Row, columns: seq<string>)
    ensures RestrictAll(rows + [row], columns) == RestrictAll(rows, columns) + [Restrict(row, columns)]
  {
  }

  lemma RestrictSame(rows: seq<Row>, columns: seq<string>, columns': seq<string>)
    requires forall c :: c in columns <==> c in columns'
    ensures RestrictAll(rows, columns) == RestrictAll(rows, columns')
  {
    forall i | 0 <= i < |rows|
      ensures Restrict(rows[i], columns) == Restrict(rows[i], columns')
    {
    }
  }

  lemma RenameRestrict(m: Renaming, rows: seq<Row>, columns: seq<string>)
    requires SourcesWithin(m, columns)
    ensures RenameAll(m, RestrictAll(rows, columns)) == RenameAll(m, rows)
  {
    forall i | 0 <= i < |rows|
      ensures RenameRow(m, Restrict(rows[i], columns)) == RenameRow(m, rows[i])
    {
      forall a | a in OutputNames(m)
        ensures Source(m, a).Some? && Cell(Restrict(rows[i], columns), Source(m, a).value)
                == Cell(rows[i], Source(m, a).value)
      {
        SourceFirst(m, a);
      }
    }
  }
}
