/** The dual-dialect SQL shim: the `?` → `$1, $2, …` placeholder rewrite the
    Postgres wrapper applies, which driver call applies it, and `createInsertQuery`. */
module SqlShim {
  import opened Strings

  datatype Dialect = Sqlite | Postgres

  /** The three driver calls of the wrapper: `run` (writes), `get` (one row), `all` (rows). */
  datatype DbCall = Run | Get | All

  /** Postgres placeholder number `k`: `$k`. */
  function Numbered(k: nat): string {
    "$" + NatToString(k)
  }

  /** Replaces each `?` of `q`, left to right, by `$k`, `$k+1`, …; every other
      character is kept. */
  function RewriteFrom(q: string, k: nat): string
    decreases |q|
  {
    if |q| == 0 then ""
    else if q[0] == '?' then Numbered(k) + RewriteFrom(q[1..], k + 1)
    else [q[0]] + RewriteFrom(q[1..], k)
  }

  lemma {:induction false} RewriteRemovesMarks(q: string, k: nat)
    ensures '?' !in RewriteFrom(q, k)
    decreases |q|
  {
    if |q| > 0 {
      RewriteRemovesMarks(q[1..], if q[0] == '?' then k + 1 else k);
      assert '?' !in Numbered(k) by {
        assert AllDigits(NatToString(k));
      }
    }
  }

  lemma {:induction false} RewriteKeepsMarkFree(q: string, k: nat)
    requires '?' !in q
    ensures RewriteFrom(q, k) == q
    decreases |q|
  {
    if |q| > 0 {
      RewriteKeepsMarkFree(q[1..], k);
    }
  }

  /** `query.replace(/\?/g, () => `$${++paramIndex}`)` with the counter starting at
      0: no `?` survives and a query without `?` comes back unchanged. */
  function ToPostgres(q: string): (r: string)
    ensures '?' !in r
    ensures '?' !in q ==> r == q
  {
    RewriteRemovesMarks(q, 1);
    assert '?' !in q ==> RewriteFrom(q, 1) == q by {
      if '?' !in q {
        RewriteKeepsMarkFree(q, 1);
      }
    }
    RewriteFrom(q, 1)
  }

  /** The Postgres rewrite cuts the query at its `?`s and numbers the gaps `$1`,
      `$2`, … left to right; the pieces between them are kept as they are. */
  lemma ToPostgresNumbersGaps(q: string)
    ensures ToPostgres(q) == JoinNumbered(Split(q, '?'), 1)
  {
    RewriteIsNumberedJoin(q, 1);
  }

  /** Independent description of the rewrite: the `?`-free pieces of the query,
      glued back together by `$k`, `$k+1`, …. */
  function JoinNumbered(pieces: seq<string>, k: nat): string
    decreases |pieces|
  {
    if |pieces| == 0 then ""
    else if |pieces| == 1 then pieces[0]
    else pieces[0] + Numbered(k) + JoinNumbered(pieces[1..], k + 1)
  }

  lemma JoinNumberedPrefix(p: string, pieces: seq<string>, k: nat)
    requires |pieces| >= 1
    ensures JoinNumbered([p + pieces[0]] + pieces[1..], k) == p + JoinNumbered(pieces, k)
  {
    var ps := [p + pieces[0]] + pieces[1..];
    assert ps[1..] == pieces[1..];
  }

  /** The rewrite splits the query at its `?`s and numbers the gaps 1, 2, 3, …
      left to right: no other character moves or changes. */
  lemma {:induction false} RewriteIsNumberedJoin(q: string, k: nat)
    ensures RewriteFrom(q, k) == JoinNumbered(Split(q, '?'), k)
    decreases |q|
  {
    if |q| > 0 {
      RewriteIsNumberedJoin(q[1..], if q[0] == '?' then k + 1 else k);
      var rest := Split(q[1..], '?');
      if q[0] == '?' {
        assert Split(q, '?') == [""] + rest;
        assert ([""] + rest)[1..] == rest;
        assert "" + Numbered(k) + JoinNumbered(rest, k + 1) == Numbered(k) + JoinNumbered(rest, k + 1);
      } else {
        JoinNumberedPrefix([q[0]], rest, k);
      }
    }
  }

  /** One step of the rewrite, on a string given as its first character and the rest. */
  lemma RewriteCons(c: char, t: string, k: nat)
    ensures RewriteFrom([c] + t, k)
         == if c == '?' then Numbered(k) + RewriteFrom(t, k + 1) else [c] + RewriteFrom(t, k)
    ensures CountChar([c] + t, '?') == (if c == '?' then 1 else 0) + CountChar(t, '?')
  {
    ConsParts(c, t);
  }

  /** Rewriting a concatenation rewrites the second part with the numbering
      carried on from the first. */
  lemma {:induction false} RewriteAppend(a: string, b: string, k: nat)
    ensures RewriteFrom(a + b, k) == RewriteFrom(a, k) + RewriteFrom(b, k + CountChar(a, '?'))
    decreases |a|
  {
    if |a| == 0 {
      EmptyLeft(a, b);
    } else {
      HeadTail(a);
      if a[0] == '?' {
        RewriteAppend(a[1..], b, k + 1);
        RewriteAppendMark(a[0], a[1..], b, k);
      } else {
        RewriteAppend(a[1..], b, k);
        RewriteAppendPlain(a[0], a[1..], b, k);
      }
    }
  }

  /** The inductive step of `RewriteAppend` for a leading `?`. */
  lemma RewriteAppendMark(c: char, t: string, b: string, k: nat)
    requires c == '?'
    requires RewriteFrom(t + b, k + 1) == RewriteFrom(t, k + 1) + RewriteFrom(b, k + 1 + CountChar(t, '?'))
    ensures RewriteFrom([c] + t + b, k) == RewriteFrom([c] + t, k) + RewriteFrom(b, k + CountChar([c] + t, '?'))
  {
    SeqAssoc([c], t, b);
    RewriteCons(c, t + b, k);
    RewriteCons(c, t, k);
    SeqAssoc(Numbered(k), RewriteFrom(t, k + 1), RewriteFrom(b, k + 1 + CountChar(t, '?')));
  }

  /** The inductive step of `RewriteAppend` for a leading character other than `?`. */
  lemma RewriteAppendPlain(c: char, t: string, b: string, k: nat)
    requires c != '?'
    requires RewriteFrom(t + b, k) == RewriteFrom(t, k) + RewriteFrom(b, k + CountChar(t, '?'))
    ensures RewriteFrom([c] + t + b, k) == RewriteFrom([c] + t, k) + RewriteFrom(b, k + CountChar([c] + t, '?'))
  {
    SeqAssoc([c], t, b);
    RewriteCons(c, t + b, k);
    RewriteCons(c, t, k);
    SeqAssoc([c], RewriteFrom(t, k), RewriteFrom(b, k + CountChar(t, '?')));
  }

  /** How the Postgres wrapper prepares a query for each driver call, AS WRITTEN:
      `get` and `all` rewrite placeholders, `run` passes the query through. */
  function Prepare(d: Dialect, call: DbCall, q: string): (r: string)
    ensures d == Sqlite || call == Run ==> r == q
    ensures d == Postgres && call != Run ==> r == ToPostgres(q) && '?' !in r
  {
    if d == Postgres && call != Run then ToPostgres(q) else q
  }

  /** AS WRITTEN, a write through `run` in Postgres mode still carries a `?`, which
      Postgres does not accept as a parameter marker: deleting a track by id is one. */
  lemma RunKeepsQuestionMark()
    ensures '?' in Prepare(Postgres, Run, "DELETE FROM tracks WHERE id = ?")
  {
    var q := "DELETE FROM tracks WHERE id = ?";
    assert q[|q| - 1] == '?';
  }

  /** Corrected preparation: every call in Postgres mode rewrites its placeholders. */
  function PrepareCorrected(d: Dialect, call: DbCall, q: string): (r: string)
    ensures d == Sqlite ==> r == q
    ensures d == Postgres ==> '?' !in r
    ensures d == Postgres ==> r == ToPostgres(q)
  {
    if d == Postgres then ToPostgres(q) else q
  }

  // ------------------------------------------------------ createInsertQuery

  /** The placeholder `createInsertQuery` emits for column `i` (0-based). */
  function Placeholder(d: Dialect, i: nat): string {
    if d == Postgres then Numbered(i + 1) else "?"
  }

  /** Placeholders for columns `i`, `i+1`, …, `i+n-1`. */
  function PlaceholdersFrom(d: Dialect, i: nat, n: nat): (ps: seq<string>)
    ensures |ps| == n
    decreases n
  {
    if n == 0 then [] else [Placeholder(d, i)] + PlaceholdersFrom(d, i + 1, n - 1)
  }

  function Placeholders(d: Dialect, n: nat): seq<string> {
    PlaceholdersFrom(d, 0, n)
  }

  function Returning(d: Dialect): string {
    if d == Postgres then " RETURNING id" else ""
  }

  /** `INSERT INTO <table> (<columns>) VALUES (`. */
  function InsertHead(table: string, columns: seq<string>): string {
    "INSERT INTO " + table + " (" + Join(columns, ", ") + ") VALUES ("
  }

  /** `createInsertQuery(table, columns)`: one placeholder per column, and a
      `RETURNING id` clause in Postgres mode only. */
  function CreateInsertQuery(d: Dialect, table: string, columns: seq<string>): (q: string)
    ensures d == Postgres <==> |q| >= 13 && q[|q| - 13..] == " RETURNING id"
    ensures d == Sqlite && '?' !in table && (forall i :: 0 <= i < |columns| ==> '?' !in columns[i])
            ==> CountChar(q, '?') == |columns|
  {
    var head := InsertHead(table, columns);
    var q := head + Join(Placeholders(d, |columns|), ", ") + ")" + Returning(d);
    assert q[|q| - 1] == (if d == Postgres then 'd' else ')');
    assert d == Sqlite && '?' !in table && (forall i :: 0 <= i < |columns| ==> '?' !in columns[i])
           ==> CountChar(q, '?') == |columns| by {
      if d == Sqlite && '?' !in table && (forall i :: 0 <= i < |columns| ==> '?' !in columns[i]) {
        JoinFreeOf(columns, ", ", '?');
        CountCharAbsent(head, '?');
        CountQuestionMarks(0, |columns|);
        assert q == head + Join(Placeholders(d, |columns|), ", ") + ")";
        CountCharAppend(head, Join(Placeholders(d, |columns|), ", "), '?');
        CountCharAppend(head + Join(Placeholders(d, |columns|), ", "), ")", '?');
        CountCharAbsent(")", '?');
      }
    }
    q
  }

  /** The insert statement as its head, its placeholder tail and its returning clause. */
  lemma InsertQueryShape(d: Dialect, table: string, columns: seq<string>)
    ensures CreateInsertQuery(d, table, columns)
         == InsertHead(table, columns) + (Join(Placeholders(d, |columns|), ", ") + ")") + Returning(d)
  {
    SeqAssoc(InsertHead(table, columns), Join(Placeholders(d, |columns|), ", "), ")");
  }

  /** Joining pieces free of `c` with a separator free of `c` stays free of `c`. */
  lemma {:induction false} JoinFreeOf(parts: seq<string>, sep: string, c: char)
    requires c !in sep
    requires forall i :: 0 <= i < |parts| ==> c !in parts[i]
    ensures c !in Join(parts, sep)
    decreases |parts|
  {
    if |parts| > 1 {
      JoinFreeOf(parts[1..], sep, c);
    }
  }

  lemma {:induction false} CountQuestionMarks(i: nat, n: nat)
    ensures CountChar(Join(PlaceholdersFrom(Sqlite, i, n), ", "), '?') == n
    decreases n
  {
    var ps := PlaceholdersFrom(Sqlite, i, n);
    if n >= 2 {
      assert ps[1..] == PlaceholdersFrom(Sqlite, i + 1, n - 1);
      CountQuestionMarks(i + 1, n - 1);
      var tail := Join(ps[1..], ", ");
      assert Join(ps, ", ") == "?" + (", " + tail);
      CountCharAppend("?", ", " + tail, '?');
      CountCharAppend(", ", tail, '?');
    } else if n == 1 {
      assert Join(ps, ", ") == "?";
    }
  }

  lemma JoinCons(x: string, rest: seq<string>, sep: string)
    requires |rest| >= 1
    ensures Join([x] + rest, sep) == x + (sep + Join(rest, sep))
  {
    assert ([x] + rest)[1..] == rest;
  }

  lemma RewriteOneMark(k: nat)
    ensures RewriteFrom("?", k) == Numbered(k)
    ensures CountChar("?", '?') == 1
  {
    assert "?"[1..] == "";
  }

  /** A `?`-free prefix passes through the rewrite unchanged and uses no numbers. */
  lemma RewriteFreePrefix(a: string, b: string, k: nat)
    requires '?' !in a
    ensures RewriteFrom(a + b, k) == a + RewriteFrom(b, k)
  {
    RewriteAppend(a, b, k);
    CountCharAbsent(a, '?');
    RewriteKeepsMarkFree(a, k);
  }

  /** Rewriting the SQLite placeholders of columns `i`… yields their Postgres ones. */
  lemma {:induction false} RewritePlaceholders(i: nat, n: nat)
    ensures RewriteFrom(Join(PlaceholdersFrom(Sqlite, i, n), ", "), i + 1)
         == Join(PlaceholdersFrom(Postgres, i, n), ", ")
    decreases n
  {
    var ps := PlaceholdersFrom(Sqlite, i, n);
    var qs := PlaceholdersFrom(Postgres, i, n);
    if n == 1 {
      assert Join(ps, ", ") == "?";
      RewriteOneMark(i + 1);
    } else if n >= 2 {
      var prest := PlaceholdersFrom(Sqlite, i + 1, n - 1);
      var qrest := PlaceholdersFrom(Postgres, i + 1, n - 1);
      assert ps == ["?"] + prest;
      assert qs == [Numbered(i + 1)] + qrest;
      var tail := Join(prest, ", ");
      var qtail := Join(qrest, ", ");
      JoinCons("?", prest, ", ");
      JoinCons(Numbered(i + 1), qrest, ", ");
      RewritePlaceholders(i + 1, n - 1);
      RewriteOneMark(i + 1);
      RewriteAppend("?", ", " + tail, i + 1);
      RewriteFreePrefix(", ", tail, i + 2);
    }
  }

  /** The rewrite turns the SQLite tail of an insert statement into the Postgres one. */
  lemma RewriteInsertTail(head: string, n: nat)
    requires '?' !in head
    ensures RewriteFrom(head + (Join(Placeholders(Sqlite, n), ", ") + ")"), 1)
         == head + (Join(Placeholders(Postgres, n), ", ") + ")")
  {
    var sq := Join(Placeholders(Sqlite, n), ", ");
    RewriteFreePrefix(head, sq + ")", 1);
    RewriteAppend(sq, ")", 1);
    CountQuestionMarks(0, n);
    RewritePlaceholders(0, n);
    RewriteKeepsMarkFree(")", 1 + n);
  }

  /** The two dialects agree: the SQLite insert statement, run through the
      Postgres rewrite, is the Postgres statement without its `RETURNING id`. */
  lemma DialectsAgree(table: string, columns: seq<string>)
    requires '?' !in table
    requires forall i :: 0 <= i < |columns| ==> '?' !in columns[i]
    ensures ToPostgres(CreateInsertQuery(Sqlite, table, columns)) + " RETURNING id"
         == CreateInsertQuery(Postgres, table, columns)
    ensures '?' !in CreateInsertQuery(Postgres, table, columns)
  {
    var n := |columns|;
    var head := InsertHead(table, columns);
    JoinFreeOf(columns, ", ", '?');
    assert '?' !in head;
    InsertQueryShape(Sqlite, table, columns);
    InsertQueryShape(Postgres, table, columns);
    EmptyRight(head + (Join(Placeholders(Sqlite, n), ", ") + ")"));
    RewriteInsertTail(head, n);
  }

  /** The corrected preparation leaves Postgres insert statements untouched, so
      applying it to `run` as well cannot break the inserts that already work. */
  lemma CorrectedKeepsInserts(call: DbCall, table: string, columns: seq<string>)
    requires '?' !in table
    requires forall i :: 0 <= i < |columns| ==> '?' !in columns[i]
    ensures PrepareCorrected(Postgres, call, CreateInsertQuery(Postgres, table, columns))
         == CreateInsertQuery(Postgres, table, columns)
  {
    DialectsAgree(table, columns);
  }
}
