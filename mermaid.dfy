/**
 * Rendering the provenance around one record as a mermaid flowchart: node
 * names, node shapes, value truncation, and the traversal that walks from
 * the root record over derivations and predecessors.
 */
module MermaidGraph {
  import opened Wrappers
  import opened Text

  /** A tag of a record as the graph shows it. */
  datatype TagView = TagView(key: string, value: string)

  /** An invalidation action attached to a record; `id` is its text form. */
  datatype ActionView = ActionView(id: string, name: string, cmd: string)

  /** The root cause of an invalidation: an invalidation model or a bare UUID. */
  datatype InvalidationRef = FromModel(modelId: string) | FromUuid(uuid: string)

  datatype InvalidationView = InvalidationView(id: string, cause: string, root: Option<InvalidationRef>)

  /** A record row with the relations the graph reads from it. */
  datatype RecordView = RecordView(
    recordId: int,
    name: string,
    uris: seq<string>,
    tags: seq<TagView>,
    invalidationAction: Option<ActionView>,
    invalidation: Option<InvalidationView>)

  /**
   * The database as the traversal sees it: records by id, and for each id
   * the ids `get_derivations` and `get_predecessors` return, in order.
   */
  datatype Graph = Graph(
    records: map<int, RecordView>,
    derivations: map<int, seq<int>>,
    predecessors: map<int, seq<int>>)

  datatype MermaidError = NoRootRecord(recordId: int)

  /** Every id the queries return names a record, stored under its own id. */
  predicate ValidGraph(g: Graph)
  {
    && (forall k :: k in g.records ==> g.records[k].recordId == k)
    && (forall k, y :: k in g.derivations && y in g.derivations[k] ==> y in g.records)
    && (forall k, y :: k in g.predecessors && y in g.predecessors[k] ==> y in g.records)
  }

  function Derivations(g: Graph, x: int): seq<int>
  {
    if x in g.derivations then g.derivations[x] else []
  }

  function Predecessors(g: Graph, x: int): seq<int>
  {
    if x in g.predecessors then g.predecessors[x] else []
  }

  predicate IsNeighbour(g: Graph, x: int, y: int)
  {
    y in Derivations(g, x) || y in Predecessors(g, x)
  }

  predicate Distinct(s: seq<int>)
  {
    forall i, j :: 0 <= i < j < |s| ==> s[i] != s[j]
  }

  predicate EndsWith(s: string, t: string)
  {
    |t| <= |s| && s[|s| - |t|..] == t
  }

  /** `quote_str`: the text between double quotes. */
  function QuoteStr(s: string): (r: string)
    ensures |r| == |s| + 2 && r[0] == '"' && r[|r| - 1] == '"' && r[1..|r| - 1] == s
  {
    "\"" + s + "\""
  }

  /** `node_name_for_record`. */
  function NodeNameForRecord(recordId: int): string
  {
    "record" + IntToDecimal(recordId)
  }

  /** Distinct records get distinct node names. */
  lemma RecordNodeNamesDistinct(a: int, b: int)
    requires a != b
    ensures NodeNameForRecord(a) != NodeNameForRecord(b)
  {
    if NodeNameForRecord(a) == NodeNameForRecord(b) {
      assert IntToDecimal(a) == NodeNameForRecord(a)[6..];
      assert IntToDecimal(b) == NodeNameForRecord(b)[6..];
      ParsePrintedInt(a);
      ParsePrintedInt(b);
    }
  }

  /** `node_name_for_invalidation_action`: only the first five characters of the id. */
  function NodeNameForInvalidationAction(a: ActionView): string
  {
    "invalidation_action" + Take(a.id, 5)
  }

  /** Two actions share a node exactly when their ids agree on the first five characters. */
  lemma ActionNodeNameIff(a: ActionView, b: ActionView)
    ensures NodeNameForInvalidationAction(a) == NodeNameForInvalidationAction(b) <==> Take(a.id, 5) == Take(b.id, 5)
  {
    if NodeNameForInvalidationAction(a) == NodeNameForInvalidationAction(b) {
      assert Take(a.id, 5) == NodeNameForInvalidationAction(a)[19..];
      assert Take(b.id, 5) == NodeNameForInvalidationAction(b)[19..];
    }
  }

  function RefId(r: InvalidationRef): string
  {
    match r
    case FromModel(id) => id
    case FromUuid(id) => id
  }

  /** `node_name_for_invalidation` over either form of reference. */
  function NodeNameForInvalidation(r: InvalidationRef): string
  {
    "invalidation" + Take(RefId(r), 5)
  }

  /** A model and its bare UUID name the same node. */
  lemma InvalidationNodeNameIgnoresForm(id: string)
    ensures NodeNameForInvalidation(FromModel(id)) == NodeNameForInvalidation(FromUuid(id))
    ensures |id| >= 5 ==> NodeNameForInvalidation(FromModel(id)) == "invalidation" + id[..5]
  {
  }

  /** Python's `s[start:]`, negative starts counting from the end. */
  function PySliceFrom(s: string, start: int): (r: string)
    ensures EndsWith(s, r)
    ensures 0 <= start <= |s| ==> r == s[start..]
    ensures start < 0 && -start <= |s| ==> r == s[|s| + start..]
  {
    var b := if start < 0 then (if |s| + start < 0 then 0 else |s| + start)
             else (if start > |s| then |s| else start);
    s[b..]
  }

  /** Python's `s[0:stop]`, negative stops counting from the end. */
  function PySliceTo(s: string, stop: int): (r: string)
    ensures r <= s
    ensures 0 <= stop <= |s| ==> r == s[..stop]
  {
    var e := if stop < 0 then (if |s| + stop < 0 then 0 else |s| + stop)
             else (if stop > |s| then |s| else stop);
    s[..e]
  }

  /** `truncate_val` as written, with Python's slicing. */
  function TruncateVal(s: string, maxLen: int, fromRight: bool): string
  {
    if |s| > maxLen then
      if fromRight then "..." + PySliceFrom(s, -maxLen) else PySliceTo(s, maxLen) + "..."
    else s
  }

  /** Short values are shown whole. */
  lemma TruncateValShort(s: string, maxLen: int, fromRight: bool)
    requires |s| <= maxLen
    ensures TruncateVal(s, maxLen, fromRight) == s
  {
  }

  /** From the left: the first `maxLen` characters, then an ellipsis. */
  lemma TruncateValLeft(s: string, maxLen: nat)
    requires |s| > maxLen
    ensures TruncateVal(s, maxLen, false) == s[..maxLen] + "..."
    ensures |TruncateVal(s, maxLen, false)| == maxLen + 3
  {
  }

  /** From the right with a positive limit: an ellipsis, then the last `maxLen` characters. */
  lemma TruncateValRight(s: string, maxLen: nat)
    requires 1 <= maxLen < |s|
    ensures TruncateVal(s, maxLen, true) == "..." + s[|s| - maxLen..]
    ensures |TruncateVal(s, maxLen, true)| == maxLen + 3
  {
  }

  /**
   * With `max_len == 0` from the right, `s[-0:]` is all of `s`: the value
   * is not shortened at all but lengthened by the ellipsis.
   */
  lemma TruncateValZeroFromRight()
    ensures TruncateVal("abc", 0, true) == "...abc"
    ensures |TruncateVal("abc", 0, true)| > |"abc"|
  {
    assert PySliceFrom("abc", 0) == "abc";
  }

  /** `truncate_val` as intended: never longer than `maxLen` plus the ellipsis. */
  function TruncateValIntended(s: string, maxLen: nat, fromRight: bool): (r: string)
    ensures |s| <= maxLen ==> r == s
    ensures |s| > maxLen ==> |r| == maxLen + 3
    ensures |s| > maxLen && fromRight ==> r[..3] == "..." && EndsWith(s, r[3..])
    ensures |s| > maxLen && !fromRight ==> r[maxLen..] == "..." && r[..maxLen] <= s
  {
    if |s| <= maxLen then s
    else if fromRight then "..." + s[|s| - maxLen..]
    else s[..maxLen] + "..."
  }

  /** The two agree for every limit except zero from the right. */
  lemma TruncateValAgrees(s: string, maxLen: nat, fromRight: bool)
    requires maxLen >= 1 || !fromRight
    ensures TruncateVal(s, maxLen, fromRight) == TruncateValIntended(s, maxLen, fromRight)
  {
    if |s| > maxLen && fromRight {
      TruncateValRight(s, maxLen);
    }
  }

  function UriLines(uris: seq<string>): (r: seq<string>)
    ensures |r| == |uris|
  {
    seq(|uris|, i requires 0 <= i < |uris| => TruncateVal(uris[i], 90, false))
  }

  function TagLine(t: TagView): string
  {
    TruncateVal(t.key, 25, true) + " = " + TruncateVal(t.value, 32, false)
  }

  /**
   * The limits the labels use are all positive, so the labels never meet
   * the zero-limit case: every URI line and both halves of a tag line are
   * truncated as intended.
   */
  lemma LabelLinesTruncateAsIntended(uris: seq<string>, t: TagView)
    ensures forall i :: 0 <= i < |uris| ==> UriLines(uris)[i] == TruncateValIntended(uris[i], 90, false)
    ensures TagLine(t) == TruncateValIntended(t.key, 25, true) + " = " + TruncateValIntended(t.value, 32, false)
  {
    forall i | 0 <= i < |uris|
      ensures UriLines(uris)[i] == TruncateValIntended(uris[i], 90, false)
    {
      TruncateValAgrees(uris[i], 90, false);
    }
    TruncateValAgrees(t.key, 25, true);
    TruncateValAgrees(t.value, 32, false);
  }

  function TagLines(tags: seq<TagView>): (r: seq<string>)
    ensures |r| == |tags|
  {
    seq(|tags|, i requires 0 <= i < |tags| => TagLine(tags[i]))
  }

  /** The URI part of a label: a rule, then one line per URI. */
  function UriSection(r: RecordView): string
  {
    if |r.uris| > 0 then "<hr>" + Join(UriLines(r.uris), "<br>") else ""
  }

  /** The tag part of a label: a rule, then one line per tag. */
  function TagSection(r: RecordView): string
  {
    if |r.tags| > 0 then "<hr>" + Join(TagLines(r.tags), "<br>") else ""
  }

  /** The label of a record's node: its name, then its URIs, then its tags. */
  function RecordLabel(r: RecordView): string
  {
    r.name + UriSection(r) + TagSection(r)
  }

  function RecordColour(r: RecordView): string
  {
    if r.invalidation.None? then "LightGoldenRodYellow" else "LightPink"
  }

  function Fill(colour: string): string
  {
    "fill:" + colour
  }

  /** The line that colours a node. */
  function StyleLine(node: string, colour: string): string
  {
    "style " + node + " " + Fill(colour)
  }

  /** `record_to_mermaid_shape`: a rounded node and its fill style. */
  function RecordShape(r: RecordView): string
  {
    var node := NodeNameForRecord(r.recordId);
    node + "(" + QuoteStr(RecordLabel(r)) + ")" + "\n" + StyleLine(node, RecordColour(r))
  }

  lemma EndsWithAppend(p: string, t: string)
    ensures EndsWith(p + t, t)
  {
    assert (p + t)[|p|..] == t;
  }

  lemma EndsWithLastChar(s: string, t: string)
    requires EndsWith(s, t) && |t| > 0
    ensures s[|s| - 1] == t[|t| - 1]
  {
    assert s[|s| - |t|..][|t| - 1] == s[|s| - 1];
  }

  lemma EndsWithExtend(p: string, s: string, t: string)
    requires EndsWith(s, t)
    ensures EndsWith(p + s, t)
  {
    assert (p + s)[|p + s| - |t|..] == s[|s| - |t|..];
  }

  /** A record's shape ends with its fill. */
  lemma RecordShapeEndsWithFill(r: RecordView)
    ensures EndsWith(RecordShape(r), Fill(RecordColour(r)))
  {
    var node := NodeNameForRecord(r.recordId);
    var c := RecordColour(r);
    EndsWithAppend("style " + node + " ", Fill(c));
    EndsWithExtend(node + "(" + QuoteStr(RecordLabel(r)) + ")" + "\n", StyleLine(node, c), Fill(c));
  }

  /** A string cannot end with two texts whose last characters differ. */
  lemma EndsWithOne(s: string, t: string, u: string)
    requires EndsWith(s, t) && |t| > 0 && |u| > 0 && t[|t| - 1] != u[|u| - 1]
    ensures !EndsWith(s, u)
  {
    EndsWithLastChar(s, t);
    if EndsWith(s, u) {
      EndsWithLastChar(s, u);
    }
  }

  /** A text ending with the fill of one of the two record colours ends with no other. */
  lemma FillDecidesColour(s: string, c: string)
    requires c == "LightPink" || c == "LightGoldenRodYellow"
    requires EndsWith(s, Fill(c))
    ensures EndsWith(s, "fill:LightPink") <==> c == "LightPink"
    ensures EndsWith(s, "fill:LightGoldenRodYellow") <==> c == "LightGoldenRodYellow"
  {
    var pink := "fill:LightPink";
    var yellow := "fill:LightGoldenRodYellow";
    assert pink[|pink| - 1] != yellow[|yellow| - 1];
    if c == "LightPink" {
      EndsWithOne(s, pink, yellow);
    } else {
      EndsWithOne(s, yellow, pink);
    }
  }

  /** An invalidated record is drawn pink, any other yellow. */
  lemma RecordShapeColour(r: RecordView)
    ensures EndsWith(RecordShape(r), "fill:LightPink") <==> r.invalidation.Some?
    ensures EndsWith(RecordShape(r), "fill:LightGoldenRodYellow") <==> r.invalidation.None?
  {
    RecordShapeEndsWithFill(r);
    FillDecidesColour(RecordShape(r), RecordColour(r));
  }

  lemma PrefixOfAppends(a: string, b: string, c: string)
    ensures a <= a + b + c
  {
    assert (a + b + c)[..|a|] == a;
  }

  /** The label holds the record's name first. */
  lemma RecordLabelStartsWithName(r: RecordView)
    ensures r.name <= RecordLabel(r)
  {
    PrefixOfAppends(r.name, UriSection(r), TagSection(r));
  }

  /** `invalidation_action_to_mermaid_shape`: a hexagon with the action's name and command. */
  function ActionShape(a: ActionView): string
  {
    var node := NodeNameForInvalidationAction(a);
    node + "{{" + a.name + " <br> " + a.cmd + "}}\n" + "style " + node + " fill:MediumSpringGreen\n"
  }

  /** `invalidation_to_mermaid_shape`: a parallelogram, linked from its root cause if any. */
  function InvalidationShape(inv: InvalidationView): string
  {
    var node := NodeNameForInvalidation(FromModel(inv.id));
    var toRoot := if inv.root.Some? then NodeNameForInvalidation(inv.root.value) + " ==>|Causes| " + node + "\n" else "";
    node + "[/" + QuoteStr(inv.cause) + "/]\n" + toRoot + "style " + node + " fill:Violet"
  }

  /** What `to_mermaid` writes for a record before its derivation edges. */
  function RecordHeader(r: RecordView): string
  {
    var node := NodeNameForRecord(r.recordId);
    RecordShape(r) + "\n"
    + (if r.invalidationAction.Some? then
         ActionShape(r.invalidationAction.value) + "\n"
         + NodeNameForInvalidationAction(r.invalidationAction.value) + " -.-> " + node + "\n"
       else "")
    + (if r.invalidation.Some? then
         InvalidationShape(r.invalidation.value) + "\n"
         + NodeNameForInvalidation(FromModel(r.invalidation.value.id)) + " -.-o|Invalidates| " + node + "\n"
       else "")
  }

  function EdgeLine(from: int, to: int): string
  {
    NodeNameForRecord(from) + "-->" + NodeNameForRecord(to) + "\n"
  }

  /** One edge line per derivation, in order. */
  function EdgeLines(from: int, tos: seq<int>): string
  {
    if tos == [] then "" else EdgeLines(from, tos[..|tos| - 1]) + EdgeLine(from, tos[|tos| - 1])
  }

  /** Everything `to_mermaid` writes when it visits record `x`. */
  function Block(g: Graph, x: int): string
    requires x in g.records
  {
    RecordHeader(g.records[x]) + EdgeLines(x, Derivations(g, x))
  }

  /** The blocks of the records visited, in visiting order. */
  function Blocks(g: Graph, order: seq<int>): string
    requires forall x :: x in order ==> x in g.records
  {
    if order == [] then "" else Blocks(g, order[..|order| - 1]) + Block(g, order[|order| - 1])
  }

  lemma Assoc(a: string, b: string, c: string)
    ensures a + b + c == a + (b + c)
  {
  }

  lemma {:induction false} EdgeLinesAppend(from: int, a: seq<int>, b: seq<int>)
    ensures EdgeLines(from, a + b) == EdgeLines(from, a) + EdgeLines(from, b)
    decreases |b|
  {
    if b == [] {
      assert a + b == a;
    } else {
      var b' := b[..|b| - 1];
      assert (a + b)[..|a + b| - 1] == a + b';
      EdgeLinesAppend(from, a, b');
      Assoc(EdgeLines(from, a), EdgeLines(from, b'), EdgeLine(from, b[|b| - 1]));
    }
  }

  /** Every derivation of a visited record appears as an edge line in its block, in place. */
  lemma EdgeLinesMention(from: int, tos: seq<int>, k: int)
    requires 0 <= k < |tos|
    ensures EdgeLines(from, tos) == EdgeLines(from, tos[..k]) + EdgeLine(from, tos[k]) + EdgeLines(from, tos[k + 1..])
  {
    assert tos == tos[..k] + ([tos[k]] + tos[k + 1..]);
    EdgeLinesAppend(from, tos[..k], [tos[k]] + tos[k + 1..]);
    EdgeLinesAppend(from, [tos[k]], tos[k + 1..]);
    assert [tos[k]][..0] == [];
    assert EdgeLines(from, [tos[k]]) == EdgeLine(from, tos[k]);
    Assoc(EdgeLines(from, tos[..k]), EdgeLine(from, tos[k]), EdgeLines(from, tos[k + 1..]));
  }

  lemma EdgeLinesSnoc(from: int, tos: seq<int>, i: int)
    requires 0 <= i < |tos|
    ensures EdgeLines(from, tos[..i + 1]) == EdgeLines(from, tos[..i]) + EdgeLine(from, tos[i])
  {
    assert tos[..i + 1][..i] == tos[..i];
  }

  lemma DistinctAppend(a: seq<int>, b: seq<int>)
    requires Distinct(a) && Distinct(b)
    requires forall y :: y in b ==> y !in a
    ensures Distinct(a + b)
  {
    forall i, j | 0 <= i < j < |a + b| ensures (a + b)[i] != (a + b)[j] {
      if j >= |a| && i < |a| {
        assert (a + b)[j] in b;
      }
    }
  }

  lemma DistinctPush(s: seq<int>, y: int)
    requires Distinct(s) && y !in s
    ensures Distinct(s + [y])
  {
  }

  lemma SliceSnoc(s: seq<int>, i: int)
    requires 0 <= i < |s|
    ensures s[..i + 1] == s[..i] + [s[i]]
  {
  }

  /** Appends the edge line to `ds[i]` to the lines written so far. */
  method AppendEdgeLine(lines: string, x: int, ds: seq<int>, i: int) returns (r: string)
    requires 0 <= i < |ds| && lines == EdgeLines(x, ds[..i])
    ensures r == EdgeLines(x, ds[..i + 1])
  {
    EdgeLinesSnoc(x, ds, i);
    r := lines + EdgeLine(x, ds[i]);
  }

  /**
   * The derivation loop of one visit: an edge line for every derivation,
   * and every derivation neither visited nor queued is queued, once.
   */
  method EmitDerivations(g: Graph, x: int, visited: set<int>, toVisit: seq<int>)
    returns (lines: string, added: seq<int>)
    requires ValidGraph(g)
    ensures lines == EdgeLines(x, Derivations(g, x))
    ensures Distinct(added)
    ensures forall y :: y in added ==> y in Derivations(g, x) && y !in visited && y !in toVisit && y in g.records
    ensures forall y :: y in Derivations(g, x) ==> y in visited || y in toVisit || y in added
  {
    var ds := Derivations(g, x);
    lines := "";
    added := [];
    for i := 0 to |ds|
      invariant lines == EdgeLines(x, ds[..i])
      invariant Distinct(added)
      invariant forall y :: y in added ==> y in ds && y !in visited && y !in toVisit && y in g.records
      invariant forall y :: y in ds[..i] ==> y in visited || y in toVisit || y in added
    {
      lines := AppendEdgeLine(lines, x, ds, i);
      if ds[i] !in visited && ds[i] !in toVisit && ds[i] !in added {
        DistinctPush(added, ds[i]);
        added := added + [ds[i]];
      }
      SliceSnoc(ds, i);
    }
    assert ds[..|ds|] == ds;
  }

  /** The predecessor loop of one visit: every predecessor neither visited nor queued is queued, once. */
  method PushPredecessors(g: Graph, x: int, visited: set<int>, toVisit: seq<int>) returns (added: seq<int>)
    requires ValidGraph(g)
    ensures Distinct(added)
    ensures forall y :: y in added ==> y in Predecessors(g, x) && y !in visited && y !in toVisit && y in g.records
    ensures forall y :: y in Predecessors(g, x) ==> y in visited || y in toVisit || y in added
  {
    var ps := Predecessors(g, x);
    added := [];
    for i := 0 to |ps|
      invariant Distinct(added)
      invariant forall y :: y in added ==> y in ps && y !in visited && y !in toVisit && y in g.records
      invariant forall j :: 0 <= j < i ==> ps[j] in visited || ps[j] in toVisit || ps[j] in added
    {
      if ps[i] !in visited && ps[i] !in toVisit && ps[i] !in added {
        DistinctPush(added, ps[i]);
        added := added + [ps[i]];
      }
    }
  }

  /** Writing a record's header and then its edge lines extends the output by its block. */
  lemma BlocksSnoc(g: Graph, order: seq<int>, x: int)
    requires forall y :: y in order ==> y in g.records
    requires x in g.records
    ensures "graph TD\n" + Blocks(g, order + [x])
      == "graph TD\n" + Blocks(g, order) + RecordHeader(g.records[x]) + EdgeLines(x, Derivations(g, x))
  {
    assert (order + [x])[..|order|] == order;
    var t, b, h, e := "graph TD\n", Blocks(g, order), RecordHeader(g.records[x]), EdgeLines(x, Derivations(g, x));
    assert Blocks(g, order + [x]) == b + (h + e);
    calc {
      t + (b + (h + e));
      { Assoc(b, h, e); }
      t + (b + h + e);
      { Assoc(t, b + h, e); }
      t + (b + h) + e;
      { Assoc(t, b, h); }
      t + b + h + e;
    }
  }

  /**
   * The bookkeeping of the traversal: `visited` holds exactly the records
   * written so far, in `order`; queued records are unvisited and queued
   * once; every neighbour of a visited record is visited or queued; and
   * every record but the root was queued by an earlier one, at position
   * `parent[y]` of `order`.
   */
  ghost predicate Traversal(g: Graph, root: int, visited: set<int>, order: seq<int>, toVisit: seq<int>,
                            parent: map<int, nat>)
  {
    && (forall x :: x in visited <==> x in order)
    && Distinct(order) && Distinct(toVisit)
    && (forall x :: x in order ==> x in g.records)
    && (forall y :: y in toVisit ==> y in g.records && y !in visited)
    && (order == [] ==> toVisit == [root])
    && (order != [] ==> order[0] == root)
    && Closed(g, order, toVisit)
    && ParentsBefore(g, order, parent)
    && (order != [] ==> QueueParents(g, order, toVisit, parent))
  }

  /** Every neighbour of a written record is written or queued. */
  ghost predicate Closed(g: Graph, order: seq<int>, toVisit: seq<int>)
  {
    forall x, y :: x in order && IsNeighbour(g, x, y) ==> y in order || y in toVisit
  }

  /** Every written record but the first was queued by a neighbour written before it. */
  ghost predicate ParentsBefore(g: Graph, order: seq<int>, parent: map<int, nat>)
  {
    forall k :: 0 < k < |order| ==>
      order[k] in parent && parent[order[k]] < k && IsNeighbour(g, order[parent[order[k]]], order[k])
  }

  /** Every queued record was queued by a written neighbour. */
  ghost predicate QueueParents(g: Graph, order: seq<int>, toVisit: seq<int>, parent: map<int, nat>)
  {
    forall y :: y in toVisit ==> y in parent && parent[y] < |order| && IsNeighbour(g, order[parent[y]], y)
  }

  lemma SeqAssoc(a: seq<int>, b: seq<int>, c: seq<int>)
    ensures a + b + c == a + (b + c)
  {
  }

  lemma DistinctSnoc(rest: seq<int>, x: int)
    requires Distinct(rest + [x])
    ensures Distinct(rest) && x !in rest
  {
    forall i, j | 0 <= i < j < |rest| ensures rest[i] != rest[j] {
      assert rest[i] == (rest + [x])[i] && rest[j] == (rest + [x])[j];
    }
    forall i | 0 <= i < |rest| ensures rest[i] != x {
      assert rest[i] == (rest + [x])[i] && x == (rest + [x])[|rest|];
    }
  }

  ghost function Adopt(parent: map<int, nat>, children: seq<int>, at: nat): map<int, nat>
  {
    map y | y in parent.Keys + (set z | z in children) :: if y in children then at else parent[y]
  }

  /** After the step every neighbour of a written record is written or queued. */
  lemma StepClosure(g: Graph, order: seq<int>, rest: seq<int>, x: int, children: seq<int>)
    requires Closed(g, order, rest + [x])
    requires forall y :: IsNeighbour(g, x, y) ==> y in order || y == x || y in rest || y in children
    ensures Closed(g, order + [x], rest + children)
  {
    forall x0, y | x0 in order + [x] && IsNeighbour(g, x0, y) ensures y in order + [x] || y in rest + children {
      if x0 != x {
        assert x0 in order;
        assert y in order || y in rest + [x];
      }
    }
  }

  /** After the step every written record but the root still has its parent written before it. */
  lemma StepParentsOrder(g: Graph, order: seq<int>, rest: seq<int>, x: int, parent: map<int, nat>, children: seq<int>)
    requires ParentsBefore(g, order, parent)
    requires order != [] ==> QueueParents(g, order, rest + [x], parent)
    requires forall y :: y in children ==> y !in order && y != x
    ensures ParentsBefore(g, order + [x], Adopt(parent, children, |order|))
  {
    var order', parent' := order + [x], Adopt(parent, children, |order|);
    forall k | 0 < k < |order'|
      ensures order'[k] in parent' && parent'[order'[k]] < k && IsNeighbour(g, order'[parent'[order'[k]]], order'[k])
    {
      if k < |order| {
        assert order'[k] == order[k] && order[k] !in children;
        assert order'[parent[order[k]]] == order[parent[order[k]]];
      } else {
        assert order'[k] == x && x !in children;
        assert x in rest + [x];
        assert order'[parent[x]] == order[parent[x]];
      }
    }
  }

  /** After the step every queued record has its parent among the written ones. */
  lemma StepParentsQueue(g: Graph, order: seq<int>, rest: seq<int>, x: int, parent: map<int, nat>, children: seq<int>)
    requires order != [] ==> QueueParents(g, order, rest + [x], parent)
    requires order == [] ==> rest == []
    requires forall y :: y in children ==> IsNeighbour(g, x, y)
    ensures QueueParents(g, order + [x], rest + children, Adopt(parent, children, |order|))
  {
    var order', parent' := order + [x], Adopt(parent, children, |order|);
    forall y | y in rest + children ensures y in parent' && parent'[y] < |order'| && IsNeighbour(g, order'[parent'[y]], y) {
      if y in children {
        assert order'[|order|] == x;
      } else {
        assert y in rest + [x];
        assert order'[parent[y]] == order[parent[y]];
      }
    }
  }

  /** The membership half of a traversal step: what is written, what is queued, and where. */
  lemma StepMembership(g: Graph, root: int, visited: set<int>, order: seq<int>, rest: seq<int>, x: int,
                       parent: map<int, nat>, derived: seq<int>, preds: seq<int>)
    requires Traversal(g, root, visited, order, rest + [x], parent)
    requires Distinct(derived) && Distinct(preds)
    requires forall y :: y in derived ==> y !in visited + {x} && y !in rest && y in g.records
    requires forall y :: y in preds ==> y !in visited + {x} && y !in rest + derived && y in g.records
    ensures x !in visited && x in g.records
    ensures forall z :: z in visited + {x} <==> z in order + [x]
    ensures Distinct(order + [x]) && Distinct(rest + derived + preds)
    ensures forall z :: z in order + [x] ==> z in g.records
    ensures forall y :: y in rest + derived + preds ==> y in g.records && y !in visited + {x}
    ensures (order + [x])[0] == root
  {
    var toVisit := rest + [x];
    assert x in toVisit;
    SeqAssoc(rest, derived, preds);
    DistinctSnoc(rest, x);
    DistinctAppend(rest, derived);
    DistinctAppend(rest + derived, preds);
    assert forall y :: y in rest ==> y in toVisit;
    if order == [] {
      assert toVisit == [root];
    }
  }

  /** Popping `x`, writing it, and queueing its unseen neighbours keeps the bookkeeping. */
  lemma TraversalStep(g: Graph, root: int, visited: set<int>, order: seq<int>, rest: seq<int>, x: int,
                      parent: map<int, nat>, derived: seq<int>, preds: seq<int>)
    requires Traversal(g, root, visited, order, rest + [x], parent)
    requires Distinct(derived) && Distinct(preds)
    requires forall y :: y in derived ==> y in Derivations(g, x) && y !in visited + {x} && y !in rest && y in g.records
    requires forall y :: y in Derivations(g, x) ==> y in visited + {x} || y in rest || y in derived
    requires forall y :: y in preds ==>
      y in Predecessors(g, x) && y !in visited + {x} && y !in rest + derived && y in g.records
    requires forall y :: y in Predecessors(g, x) ==> y in visited + {x} || y in rest + derived || y in preds
    ensures x !in visited && x in g.records
    ensures Traversal(g, root, visited + {x}, order + [x], rest + derived + preds, Adopt(parent, derived + preds, |order|))
  {
    StepMembership(g, root, visited, order, rest, x, parent, derived, preds);
    var children := derived + preds;
    SeqAssoc(rest, derived, preds);
    if order == [] {
      assert rest == [];
    }
    StepClosure(g, order, rest, x, children);
    StepParentsOrder(g, order, rest, x, parent, children);
    StepParentsQueue(g, order, rest, x, parent, children);
  }

  lemma PopLast(s: seq<int>)
    requires |s| > 0
    ensures s == s[..|s| - 1] + [s[|s| - 1]]
  {
  }

  /** Writes the block of `x` after the blocks of `order`, queueing its unseen derivations. */
  method WriteVisit(g: Graph, ghost order: seq<int>, x: int, visited: set<int>, rest: seq<int>, graphDef: string)
    returns (graphDef': string, derived: seq<int>)
    requires ValidGraph(g) && x in g.records && forall y :: y in order ==> y in g.records
    requires graphDef == "graph TD\n" + Blocks(g, order)
    ensures graphDef' == "graph TD\n" + Blocks(g, order + [x])
    ensures Distinct(derived)
    ensures forall y :: y in derived ==> y in Derivations(g, x) && y !in visited && y !in rest && y in g.records
    ensures forall y :: y in Derivations(g, x) ==> y in visited || y in rest || y in derived
  {
    var lines;
    lines, derived := EmitDerivations(g, x, visited, rest);
    graphDef' := graphDef + RecordHeader(g.records[x]) + lines;
    BlocksSnoc(g, order, x);
  }

  /**
   * One turn of the `to_mermaid` loop: pop the last queued record, write its
   * block, and queue its unseen derivations, then its unseen predecessors.
   */
  method VisitNext(g: Graph, ghost root: int, visited: set<int>, toVisit: seq<int>, graphDef: string,
                   ghost order: seq<int>, ghost parent: map<int, nat>)
    returns (x: int, visited': set<int>, toVisit': seq<int>, graphDef': string,
             ghost order': seq<int>, ghost parent': map<int, nat>)
    requires ValidGraph(g) && |toVisit| > 0
    requires Traversal(g, root, visited, order, toVisit, parent)
    requires graphDef == "graph TD\n" + Blocks(g, order)
    ensures x in g.records && x !in visited && visited' == visited + {x}
    ensures Traversal(g, root, visited', order', toVisit', parent')
    ensures graphDef' == "graph TD\n" + Blocks(g, order')
  {
    x := toVisit[|toVisit| - 1];
    var rest := toVisit[..|toVisit| - 1];
    PopLast(toVisit);
    visited' := visited + {x};
    order' := order + [x];
    var derived;
    graphDef', derived := WriteVisit(g, order, x, visited', rest, graphDef);
    var preds := PushPredecessors(g, x, visited', rest + derived);
    TraversalStep(g, root, visited, order, rest, x, parent, derived, preds);
    parent' := Adopt(parent, derived + preds, |order|);
    toVisit' := rest + derived + preds;
  }

  lemma Shrinks(keys: set<int>, visited: set<int>, x: int)
    requires x in keys && x !in visited
    ensures keys - (visited + {x}) < keys - visited
  {
    assert x in keys - visited;
  }

  /** When the queue runs dry, the records written are closed under neighbours and each was reached from an earlier one. */
  lemma TraversalComplete(g: Graph, root: int, visited: set<int>, order: seq<int>, parent: map<int, nat>)
    requires Traversal(g, root, visited, order, [], parent)
    ensures |order| >= 1 && order[0] == root && Distinct(order)
    ensures forall x :: x in order ==> x in g.records
    ensures forall x, y :: x in order && IsNeighbour(g, x, y) ==> y in order
    ensures forall k :: 0 < k < |order| ==> exists j :: 0 <= j < k && IsNeighbour(g, order[j], order[k])
  {
    forall k | 0 < k < |order|
      ensures exists j :: 0 <= j < k && IsNeighbour(g, order[j], order[k])
    {
      var j := parent[order[k]];
      assert IsNeighbour(g, order[j], order[k]);
    }
  }

  /**
   * `to_mermaid`: visits every record connected to the root through
   * derivations and predecessors exactly once, popping the most recently
   * queued record first, and writes each one's block after the header.
   */
  method ToMermaid(rootRecordId: int, g: Graph) returns (r: Result<string, MermaidError>, ghost order: seq<int>)
    requires ValidGraph(g)
    ensures rootRecordId !in g.records ==> r == Err(NoRootRecord(rootRecordId))
    ensures rootRecordId in g.records ==>
      && r.Ok?
      && |order| >= 1 && order[0] == rootRecordId && Distinct(order)
      && (forall x :: x in order ==> x in g.records)
      && r.value == "graph TD\n" + Blocks(g, order)
      && (forall x, y :: x in order && IsNeighbour(g, x, y) ==> y in order)
      && (forall k :: 0 < k < |order| ==> exists j :: 0 <= j < k && IsNeighbour(g, order[j], order[k]))
  {
    order := [];
    if rootRecordId !in g.records {
      return Err(NoRootRecord(rootRecordId)), order;
    }
    var visited: set<int> := {};
    var graphDef := "graph TD\n";
    var toVisit := [rootRecordId];
    ghost var parent: map<int, nat> := map[];
    while |toVisit| > 0
      invariant Traversal(g, rootRecordId, visited, order, toVisit, parent)
      invariant graphDef == "graph TD\n" + Blocks(g, order)
      decreases g.records.Keys - visited
    {
      var x;
      ghost var visited0 := visited;
      x, visited, toVisit, graphDef, order, parent := VisitNext(g, rootRecordId, visited, toVisit, graphDef, order, parent);
      Shrinks(g.records.Keys, visited0, x);
    }
    TraversalComplete(g, rootRecordId, visited, order, parent);
    r := Ok(graphDef);
  }
}
