/**
 * The SQL command text built by the cursor wrapper `BraidSQL`
 * (src/db_tools.py) and its MPI twin `BraidSQL_MPI` (src/db_tools_mpi.py),
 * whose helpers and command builders are the same text.
 */
module SqlText {
  import opened Wrappers
  import opened Text

  /** `q(s)`: the string between single quotes, nothing escaped. */
  function Q(s: string): (r: string)
    ensures |r| == |s| + 2 && r[0] == '\'' && r[|r| - 1] == '\''
  {
    "'" + s + "'"
  }

  /** Strips one pair of surrounding single quotes. */
  function Unquote(t: string): Option<string>
  {
    if |t| >= 2 && t[0] == '\'' && t[|t| - 1] == '\'' then Some(t[1..|t| - 1]) else None
  }

  lemma UnquoteQ(s: string)
    ensures Unquote(Q(s)) == Some(s)
  {
    assert Q(s)[1..|s| + 1] == s;
  }

  /**
   * How SQL reads the body of a quoted literal: a doubled quote stands for
   * one quote; `None` when a lone quote ends the literal early.
   */
  function SqlLiteralValue(body: string): Option<string>
  {
    if body == [] then Some([])
    else if body[0] != '\'' then
      match SqlLiteralValue(body[1..])
      case Some(rest) => Some([body[0]] + rest)
      case None => None
    else if |body| >= 2 && body[1] == '\'' then
      match SqlLiteralValue(body[2..])
      case Some(rest) => Some(['\''] + rest)
      case None => None
    else None
  }

  /** `q` gives SQL the intended text exactly when the text holds no quote. */
  lemma {:induction false} QuoteFaithfulWithoutQuotes(s: string)
    requires '\'' !in s
    ensures SqlLiteralValue(s) == Some(s)
  {
    if s != [] {
      QuoteFaithfulWithoutQuotes(s[1..]);
      assert [s[0]] + s[1..] == s;
    }
  }

  /** What SQL reads is never longer than the body, and only a quote-free body reads back whole. */
  lemma {:induction false} LiteralValueLength(body: string)
    requires SqlLiteralValue(body).Some?
    ensures |SqlLiteralValue(body).value| <= |body|
    ensures |SqlLiteralValue(body).value| == |body| ==> '\'' !in body
    decreases |body|
  {
    if body != [] {
      if body[0] != '\'' {
        LiteralValueLength(body[1..]);
        assert body == [body[0]] + body[1..];
      } else {
        LiteralValueLength(body[2..]);
      }
    }
  }

  /** Because `q` escapes nothing, SQL reads a `q`-quoted value as written exactly when it holds no quote. */
  lemma QuoteDoesNotEscape(s: string)
    ensures SqlLiteralValue(s) == Some(s) <==> '\'' !in s
  {
    if '\'' !in s {
      QuoteFaithfulWithoutQuotes(s);
    } else if SqlLiteralValue(s).Some? {
      LiteralValueLength(s);
    }
  }

  /** A lone quote, one not followed by another, ends the literal early: SQL cannot read the value. */
  lemma {:induction false} LoneQuoteBreaks(a: string, b: string)
    requires SqlLiteralValue(a).Some?
    requires b == [] || b[0] != '\''
    ensures SqlLiteralValue(a + "'" + b) == None
    decreases |a|
  {
    var s := a + "'" + b;
    if a == [] {
      assert s == "'" + b;
    } else if a[0] != '\'' {
      assert s[1..] == a[1..] + "'" + b;
      LoneQuoteBreaks(a[1..], b);
    } else {
      assert s[1] == a[1] && s[2..] == a[2..] + "'" + b;
      LoneQuoteBreaks(a[2..], b);
    }
  }

  /** A doubled quote in a value reaches SQL as a single quote. */
  lemma {:induction false} DoubledQuoteReadsAsOne(a: string, b: string)
    requires SqlLiteralValue(a).Some? && SqlLiteralValue(b).Some?
    ensures SqlLiteralValue(a + "''" + b) == Some(SqlLiteralValue(a).value + "'" + SqlLiteralValue(b).value)
    decreases |a|
  {
    var s := a + "''" + b;
    var y := SqlLiteralValue(b).value;
    if a == [] {
      assert s[0] == '\'' && s[1] == '\'' && s[2..] == b;
      assert SqlLiteralValue(s) == Some(['\''] + y);
      assert SqlLiteralValue(a).value + "'" + y == ['\''] + y;
    } else if a[0] != '\'' {
      assert s[1..] == a[1..] + "''" + b;
      DoubledQuoteReadsAsOne(a[1..], b);
      var x := SqlLiteralValue(a[1..]).value;
      assert SqlLiteralValue(s) == Some([a[0]] + (x + "'" + y));
      assert [a[0]] + (x + "'" + y) == ([a[0]] + x) + "'" + y;
    } else {
      assert s[1] == a[1] && s[2..] == a[2..] + "''" + b;
      DoubledQuoteReadsAsOne(a[2..], b);
      var x := SqlLiteralValue(a[2..]).value;
      assert SqlLiteralValue(s) == Some(['\''] + (x + "'" + y));
      assert ['\''] + (x + "'" + y) == (['\''] + x) + "'" + y;
    }
  }

  /** `qL(L)` and `qA(*args)`: `q` applied to every element, in order. */
  function QuoteEach(xs: seq<string>): (r: seq<string>)
    ensures |r| == |xs|
    ensures forall i :: 0 <= i < |xs| ==> Unquote(r[i]) == Some(xs[i])
  {
    if xs == [] then []
    else
      UnquoteQ(xs[0]);
      [Q(xs[0])] + QuoteEach(xs[1..])
  }

  /** `sql_tuple(L)`: the elements joined by commas, in parentheses. */
  function SqlTuple(l: seq<string>): (r: string)
    ensures |r| >= 2 && r[0] == '(' && r[|r| - 1] == ')'
    ensures l == [] ==> r == "()"
  {
    "(" + Join(l, ",") + ")"
  }

  /**
   * Splits at the commas outside single-quoted literals, the way SQL reads
   * the elements of a tuple; `quoted` says whether a literal is open.
   */
  function SplitFields(s: string, quoted: bool): (parts: seq<string>)
    ensures |parts| >= 1
  {
    if s == [] then [""]
    else if s[0] == ',' && !quoted then [""] + SplitFields(s[1..], false)
    else
      var rest := SplitFields(s[1..], if s[0] == '\'' then !quoted else quoted);
      [[s[0]] + rest[0]] + rest[1..]
  }

  /**
   * A tuple element SQL reads as one value: plain text with neither comma
   * nor quote, or a quoted literal with no quote inside.
   */
  predicate Field(f: string)
  {
    ('\'' !in f && ',' !in f) || (|f| >= 2 && f[0] == '\'' && f[|f| - 1] == '\'' && '\'' !in f[1..|f| - 1])
  }

  /** Reads a parenthesised tuple back, element by element. */
  function ParseTuple(t: string): Option<seq<string>>
  {
    if |t| >= 2 && t[0] == '(' && t[|t| - 1] == ')' then Some(SplitFields(t[1..|t| - 1], false)) else None
  }

  /** Quote-free text joins the element being read, whether a literal is open or not. */
  lemma {:induction false} RunPrefix(a: string, b: string, quoted: bool)
    requires '\'' !in a && (quoted || ',' !in a)
    ensures SplitFields(a + b, quoted) == [a + SplitFields(b, quoted)[0]] + SplitFields(b, quoted)[1..]
  {
    var rb := SplitFields(b, quoted);
    if a == [] {
      assert a + b == b;
      assert a + rb[0] == rb[0];
      assert [rb[0]] + rb[1..] == rb;
    } else {
      var s := a + b;
      assert s[0] == a[0] && s[1..] == a[1..] + b;
      RunPrefix(a[1..], b, quoted);
      var rest := SplitFields(s[1..], quoted);
      assert SplitFields(s, quoted) == [[a[0]] + rest[0]] + rest[1..];
      assert [a[0]] + (a[1..] + rb[0]) == a + rb[0];
    }
  }

  /** An element SQL reads as one value is read whole, whatever follows it. */
  lemma FieldPrefix(f: string, b: string)
    requires Field(f)
    ensures SplitFields(f + b, false) == [f + SplitFields(b, false)[0]] + SplitFields(b, false)[1..]
  {
    var rb := SplitFields(b, false);
    if '\'' !in f && ',' !in f {
      RunPrefix(f, b, false);
    } else {
      var v := f[1..|f| - 1];
      var qb := ['\''] + b;
      assert qb[1..] == b;
      assert SplitFields(qb, true) == [['\''] + rb[0]] + rb[1..];
      RunPrefix(v, qb, true);
      assert (f + b)[1..] == v + qb;
      assert ['\''] + (v + (['\''] + rb[0])) == f + rb[0];
    }
  }

  /** Reading a joined tuple back gives its elements when SQL reads each as one value. */
  lemma {:induction false} SplitFieldsJoin(fs: seq<string>)
    requires |fs| >= 1
    requires forall i :: 0 <= i < |fs| ==> Field(fs[i])
    ensures SplitFields(Join(fs, ","), false) == fs
  {
    if |fs| == 1 {
      FieldPrefix(fs[0], "");
      assert fs[0] + "" == fs[0];
      assert SplitFields("", false) == [""];
      assert [fs[0]] + [""][1..] == fs;
    } else {
      var rest := Join(fs[1..], ",");
      SplitFieldsJoin(fs[1..]);
      var cr := "," + rest;
      assert cr[1..] == rest;
      var rc := SplitFields(cr, false);
      assert rc == [""] + fs[1..];
      assert rc[0] == "" && rc[1..] == fs[1..];
      FieldPrefix(fs[0], cr);
      assert Join(fs, ",") == fs[0] + cr;
      assert fs[0] + "" == fs[0];
      assert [fs[0]] + fs[1..] == fs;
    }
  }

  /** A `q`-quoted value without quotes is read as one tuple element. */
  lemma QuotedField(s: string)
    requires '\'' !in s
    ensures Field(Q(s))
  {
    assert Q(s)[1..|Q(s)| - 1] == s;
  }

  /** The tuple round trip: elements SQL reads as single values, commas and spaces included, come back in order. */
  lemma SqlTupleRoundTrip(l: seq<string>)
    requires |l| >= 1
    requires forall i :: 0 <= i < |l| ==> Field(l[i])
    ensures ParseTuple(SqlTuple(l)) == Some(l)
  {
    var t := SqlTuple(l);
    assert t[1..|t| - 1] == Join(l, ",");
    SplitFieldsJoin(l);
  }

  datatype SelectParts = SelectParts(table: string, what: string, where: Option<string>)

  /** `BraidSQL.select(table, what, where)`: the command it executes. */
  function SelectCommand(table: string, what: string, where: Option<string>): string
  {
    "select " + what + " from " + table
    + (match where case Some(w) => " where " + w case None => "")
    + ";"
  }

  /** The position of the first word equal to `w`. */
  function FirstWord(ws: seq<string>, w: string): (r: Option<nat>)
    ensures r.Some? ==> r.value < |ws| && ws[r.value] == w && w !in ws[..r.value]
    ensures r.None? ==> w !in ws
  {
    if ws == [] then None
    else if ws[0] == w then Some(0)
    else match FirstWord(ws[1..], w)
      case None => None
      case Some(k) =>
        assert ws[..k + 1] == [ws[0]] + ws[1..][..k];
        Some(k + 1)
  }

  /**
   * Reads a select command back: the column list runs from `select` up to
   * the first word `from`, the table is the next word.
   */
  function ParseSelect(cmd: string): Option<SelectParts>
  {
    ParseSelectWords(Split(cmd, ' '))
  }

  /** Reads the words of a select command back. */
  function ParseSelectWords(t: seq<string>): Option<SelectParts>
    requires |t| >= 1
  {
    if t[0] != "select" then None
    else match FirstWord(t[1..], "from")
      case None => None
      case Some(k) =>
        var what := Join(t[1..k + 1], " ");
        var rest := t[k + 2..];
        if |rest| == 1 && |rest[0]| >= 1 && rest[0][|rest[0]| - 1] == ';' then
          Some(SelectParts(rest[0][..|rest[0]| - 1], what, None))
        else if |rest| >= 3 && rest[1] == "where" then
          var c := Join(rest[2..], " ");
          if |c| >= 1 && c[|c| - 1] == ';' then Some(SelectParts(rest[0], what, Some(c[..|c| - 1]))) else None
        else None
  }

  /** The first `w` after a run of words without it is found right after that run. */
  lemma {:induction false} FirstWordAfter(ws: seq<string>, w: string, more: seq<string>)
    requires w !in ws
    ensures FirstWord(ws + [w] + more, w) == Some(|ws|)
  {
    if ws != [] {
      assert (ws + [w] + more)[1..] == ws[1..] + [w] + more;
      FirstWordAfter(ws[1..], w, more);
    }
  }

  /** Words each followed by one space. */
  function Spaced(ws: seq<string>): string
  {
    if ws == [] then "" else ws[0] + " " + Spaced(ws[1..])
  }

  lemma SpacedCons(w: string, ws: seq<string>)
    ensures Spaced([w] + ws) == w + " " + Spaced(ws)
  {
    assert ([w] + ws)[1..] == ws;
  }

  lemma SpacedThree(a: string, b: string, c: string)
    ensures Spaced([a, b, c]) == a + " " + b + " " + c + " "
  {
    SpacedCons(c, []);
    assert [c] + [] == [c];
    SpacedCons(b, [c]);
    assert [b] + [c] == [b, c];
    SpacedCons(a, [b, c]);
    assert [a] + [b, c] == [a, b, c];
  }

  lemma SpacedFive(a: string, b: string, c: string, d: string, e: string)
    ensures Spaced([a, b, c, d, e]) == a + " " + b + " " + c + " " + d + " " + e + " "
  {
    SpacedThree(c, d, e);
    SpacedCons(b, [c, d, e]);
    assert [b] + [c, d, e] == [b, c, d, e];
    SpacedCons(a, [b, c, d, e]);
    assert [a] + [b, c, d, e] == [a, b, c, d, e];
  }

  lemma ConsAppend(ws: seq<string>, more: seq<string>)
    requires ws != []
    ensures ws + more == [ws[0]] + (ws[1..] + more)
  {
    assert ws == [ws[0]] + ws[1..];
  }

  lemma {:induction false} SplitSpaced(ws: seq<string>, tail: string)
    requires forall i :: 0 <= i < |ws| ==> ' ' !in ws[i]
    ensures Split(Spaced(ws) + tail, ' ') == ws + Split(tail, ' ')
  {
    if ws == [] {
      assert Spaced(ws) + tail == tail;
    } else {
      var rest := Spaced(ws[1..]) + tail;
      assert Spaced(ws) + tail == ws[0] + [' '] + rest;
      SplitAtFirst(ws[0], ' ', rest);
      SplitSpaced(ws[1..], tail);
      ConsAppend(ws, Split(tail, ' '));
    }
  }

  /** The part of a select command from the word `from` on. */
  function FromClause(table: string, where: Option<string>): string
  {
    "from " + table + (match where case Some(w) => " where " + w case None => "") + ";"
  }

  /** The words of a select command after its column list. */
  function FromWords(table: string, where: Option<string>): seq<string>
  {
    match where
    case None => ["from", table + ";"]
    case Some(w) => ["from", table, "where"] + Split(w + ";", ' ')
  }

  lemma SelectShape(table: string, what: string, where: Option<string>)
    ensures SelectCommand(table, what, where) == "select" + [' '] + (what + [' '] + FromClause(table, where))
  {
  }

  lemma FromClauseWords(table: string, where: Option<string>)
    requires ' ' !in table
    ensures Split(FromClause(table, where), ' ') == FromWords(table, where)
  {
    match where {
      case None =>
        assert FromClause(table, where) == "from" + [' '] + (table + ";");
        SplitAtFirst("from", ' ', table + ";");
        SplitNoSeparator(table + ";", ' ');
      case Some(w) =>
        var r4 := "where" + [' '] + (w + ";");
        var r3 := table + [' '] + r4;
        assert FromClause(table, where) == "from" + [' '] + r3;
        SplitAtFirst("where", ' ', w + ";");
        SplitAtFirst(table, ' ', r4);
        SplitAtFirst("from", ' ', r3);
    }
  }

  /** The words of a select command: the column list's own words sit between `select` and `from`. */
  lemma SelectWords(table: string, what: string, where: Option<string>)
    requires ' ' !in table
    ensures Split(SelectCommand(table, what, where), ' ') == ["select"] + Split(what, ' ') + FromWords(table, where)
  {
    var r2 := FromClause(table, where);
    SelectShape(table, what, where);
    FromClauseWords(table, where);
    SplitAtFirst("select", ' ', what + [' '] + r2);
    SplitConcat(what, ' ', r2);
  }

  /**
   * A select command determines its table, column list and condition,
   * with or without a where clause, whenever the table is one word and the
   * column list does not hold the word `from`.
   */
  lemma SelectRoundTrip(table: string, what: string, where: Option<string>)
    requires ' ' !in table && "from" !in Split(what, ' ')
    ensures ParseSelect(SelectCommand(table, what, where)) == Some(SelectParts(table, what, where))
  {
    SelectWords(table, what, where);
    SelectWordsReadBack(Split(what, ' '), table, where);
    JoinSplit(what, ' ');
  }

  /** The words `select`, a column list without `from`, and a from clause read back as those parts. */
  lemma SelectWordsReadBack(ws: seq<string>, table: string, where: Option<string>)
    requires "from" !in ws
    ensures ParseSelectWords(["select"] + ws + FromWords(table, where)) == Some(SelectParts(table, Join(ws, " "), where))
  {
    match where {
      case None => BareSelectReadBack(ws, table);
      case Some(w) => WhereSelectReadBack(ws, table, w);
    }
  }

  lemma BareSelectReadBack(ws: seq<string>, table: string)
    requires "from" !in ws
    ensures ParseSelectWords(["select"] + ws + ["from", table + ";"]) == Some(SelectParts(table, Join(ws, " "), None))
  {
    var t := ["select"] + ws + ["from", table + ";"];
    WordsAfterSelect(t, ws, ["from", table + ";"]);
    var last := table + ";";
    assert t[|ws| + 2..] == [last];
    assert |last| == |table| + 1 && last[|table|] == ';' && last[..|table|] == table;
  }

  lemma WhereSelectReadBack(ws: seq<string>, table: string, w: string)
    requires "from" !in ws
    ensures ParseSelectWords(["select"] + ws + (["from", table, "where"] + Split(w + ";", ' ')))
         == Some(SelectParts(table, Join(ws, " "), Some(w)))
  {
    var wt := w + ";";
    var fw := ["from", table, "where"] + Split(wt, ' ');
    var t := ["select"] + ws + fw;
    WordsAfterSelect(t, ws, fw);
    var rest := t[|ws| + 2..];
    assert rest == fw[1..] && rest[0] == table && rest[1] == "where";
    assert rest[2..] == Split(wt, ' ');
    JoinSplit(wt, ' ');
    assert wt[..|wt| - 1] == w;
  }

  /** Where `select`, the column list and the from clause sit in the words of a select command. */
  lemma WordsAfterSelect(t: seq<string>, ws: seq<string>, fw: seq<string>)
    requires "from" !in ws
    requires |fw| >= 2 && fw[0] == "from"
    requires t == ["select"] + ws + fw
    ensures t[0] == "select" && FirstWord(t[1..], "from") == Some(|ws|)
    ensures t[1..|ws| + 1] == ws && t[|ws| + 2..] == fw[1..]
  {
    assert t[1..] == ws + ["from"] + fw[1..];
    FirstWordAfter(ws, "from", fw[1..]);
  }

  datatype InsertParts = InsertParts(table: string, names: seq<string>, values: seq<string>)

  /** `BraidSQL.insert(table, names, values)`: the command it executes. */
  function InsertCommand(table: string, names: seq<string>, values: seq<string>): string
  {
    "insert into " + table + " " + SqlTuple(names) + " values " + SqlTuple(values) + ";"
  }

  /** Reads an insert command back. */
  function ParseInsert(cmd: string): Option<InsertParts>
  {
    var t := Split(cmd, ' ');
    if |t| >= 6 && t[0] == "insert" && t[1] == "into" && t[4] == "values" then
      var rest := Join(t[5..], " ");
      if |rest| >= 1 && rest[|rest| - 1] == ';' then
        match (ParseTuple(t[3]), ParseTuple(rest[..|rest| - 1]))
        case (Some(names), Some(values)) => Some(InsertParts(t[2], names, values))
        case _ => None
      else None
    else None
  }

  /**
   * An insert command determines its table, column names and values when the
   * table and names are single words and SQL reads every name and value as
   * one element: plain text, or a quoted literal that may hold commas and spaces.
   */
  lemma InsertRoundTrip(table: string, names: seq<string>, values: seq<string>)
    requires ' ' !in table
    requires |names| >= 1 && forall i :: 0 <= i < |names| ==> ' ' !in names[i] && Field(names[i])
    requires |values| >= 1 && forall i :: 0 <= i < |values| ==> Field(values[i])
    ensures ParseInsert(InsertCommand(table, names, values)) == Some(InsertParts(table, names, values))
  {
    var nt, vt := SqlTuple(names), SqlTuple(values);
    InsertWords(table, names, values);
    var t := Split(InsertCommand(table, names, values), ' ');
    var tail := vt + ";";
    assert t[5..] == Split(tail, ' ');
    JoinSplit(tail, ' ');
    assert tail[..|tail| - 1] == vt;
    SqlTupleRoundTrip(names);
    SqlTupleRoundTrip(values);
  }

  lemma InsertWords(table: string, names: seq<string>, values: seq<string>)
    requires ' ' !in table
    requires forall i :: 0 <= i < |names| ==> ' ' !in names[i]
    ensures Split(InsertCommand(table, names, values), ' ')
         == ["insert", "into", table, SqlTuple(names), "values"] + Split(SqlTuple(values) + ";", ' ')
  {
    var nt := SqlTuple(names);
    JoinHasNoSeparator(names, ",", ' ');
    assert ' ' !in nt;
    SpacedFive("insert", "into", table, nt, "values");
    InsertShape(table, nt, SqlTuple(values));
    SplitSpaced(["insert", "into", table, nt, "values"], SqlTuple(values) + ";");
  }

  /** The insert command is five space-terminated words followed by the value tuple. */
  lemma InsertShape(table: string, nt: string, vt: string)
    ensures "insert into " + table + " " + nt + " values " + vt + ";"
         == "insert" + " " + "into" + " " + table + " " + nt + " " + "values" + " " + (vt + ";")
  {
    var p := "insert" + " " + "into" + " ";
    assert "insert into " == p;
    assert " values " == " " + "values" + " ";
  }

  lemma {:induction false} JoinHasNoSeparator(parts: seq<string>, sep: string, c: char)
    requires c !in sep
    requires forall i :: 0 <= i < |parts| ==> c !in parts[i]
    ensures c !in Join(parts, sep)
  {
    if |parts| > 1 { JoinHasNoSeparator(parts[1..], sep, c); }
  }
}
