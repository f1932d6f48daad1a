/**
 * The argument handling of the FuncX entry points of the provenance store
 * (src/braid_db/funcx/funcx_main.py): how a step's result, URIs and nested
 * parameters become tags and URIs of the step's record, how a record id or
 * an invalidation action id is recovered from an earlier step's reported
 * result, the checks on invalidation actions, the registration cache keyed
 * by implementation hash, and the input wrapping of `add_records`.
 *
 * Arguments arrive as JSON-like Python values; `Value` models them.
 */
module FuncxSteps {
  import opened Wrappers
  import opened Text

  /**
   * A Python value as the entry points receive it. A dict keeps its entries
   * in insertion order; a Python dict never holds a key twice, and where a
   * sequence here does repeat a key, `Lookup` reads the last entry, as the
   * dict built from those pairs would. `VOther` is a value of any other type (a float, say),
   * carried with its `str` text, that is neither subscriptable nor a dict.
   */
  datatype Value =
    | VNone
    | VBool(b: bool)
    | VInt(i: int)
    | VStr(s: string)
    | VList(items: seq<Value>)
    | VDict(entries: seq<Entry>)
    | VOther(shown: string)

  datatype Entry = Entry(key: string, val: Value)

  /**
   * The exceptions the argument handling raises. The last two come from the
   * database driver when a record lookup hands it an id it cannot bind:
   * `OverflowError` for an integer outside sqlite's 64 bits, `InterfaceError`
   * for a list or a dict (sqlite3 reports an unsupported parameter type).
   */
  datatype PyError = AttributeError | IndexError | KeyError | TypeError | ValueError
                   | OverflowError | InterfaceError

  /** A `(key, value)` pair handed to `add_tag`. */
  datatype Tag = Tag(key: string, value: string)

  /** `d[key]` for a dict; the last entry with the key is the one the dict holds. */
  function Lookup(entries: seq<Entry>, key: string): (r: Option<Value>)
    ensures r.Some? ==> Entry(key, r.value) in entries
    ensures r.None? <==> forall i :: 0 <= i < |entries| ==> entries[i].key != key
  {
    if entries == [] then None
    else
      var last := entries[|entries| - 1];
      if last.key == key then Some(last.val) else Lookup(entries[..|entries| - 1], key)
  }

  /** `d.get(key, default)`. */
  function Get(entries: seq<Entry>, key: string, default: Value): Value
  {
    match Lookup(entries, key)
    case Some(v) => v
    case None => default
  }

  /** Python's `repr` of a string, without escaping. */
  function QuoteRepr(s: string): string
  {
    "'" + s + "'"
  }

  /** Python's `str(v)`. */
  function Str(v: Value): string
    decreases v, 1
  {
    match v
    case VNone => "None"
    case VBool(b) => if b then "True" else "False"
    case VInt(i) => IntToDecimal(i)
    case VStr(s) => s
    case VOther(shown) => shown
    case VList(items) =>
      "[" + Join(seq(|items|, k requires 0 <= k < |items| => Repr(items[k])), ", ") + "]"
    case VDict(entries) =>
      "{" + Join(seq(|entries|, k requires 0 <= k < |entries| =>
                   QuoteRepr(entries[k].key) + ": " + Repr(entries[k].val)), ", ") + "}"
  }

  /** Python's `repr(v)`: strings are quoted, everything else prints as `str`. */
  function Repr(v: Value): string
    decreases v, 2
  {
    if v.VStr? then QuoteRepr(v.s) else Str(v)
  }

  lemma StrOfInt(i: int)
    ensures Str(VInt(i)) == IntToDecimal(i)
    ensures ParsePyInt(Str(VInt(i))) == Some(i)
  {
    ParsePrintedInt(i);
  }

  // ---------------------------------------------------------------------
  // add_record_for_action_step: status, URIs, parameters
  // ---------------------------------------------------------------------

  /**
   * The `step_result` normalisation: an absent result becomes a marker, a
   * dict stands for its "status" entry (or a marker when it has none), and
   * any other result stands for itself.
   */
  function NormaliseStepResult(stepResult: Value): (r: Value)
    ensures stepResult.VNone? ==> r == VStr("Not Provided")
    ensures stepResult.VDict? && Lookup(stepResult.entries, "status").None? ==> r == VStr("Not Present in Step Results")
    ensures stepResult.VDict? && Lookup(stepResult.entries, "status").Some? ==>
      Entry("status", r) in stepResult.entries
    ensures !stepResult.VNone? && !stepResult.VDict? ==> r == stepResult
  {
    if stepResult.VNone? then VStr("Not Provided")
    else if stepResult.VDict? then Get(stepResult.entries, "status", VStr("Not Present in Step Results"))
    else stepResult
  }

  /** The tag the step's record always gets first: its status, as text. */
  function StatusTag(stepResult: Value): Tag
  {
    Tag("status", Str(NormaliseStepResult(stepResult)))
  }

  /** A text result is its own status; a dict reporting a text status gives that text. */
  lemma StatusTagOfText(s: string, others: seq<Entry>)
    requires forall i :: 0 <= i < |others| ==> others[i].key != "status"
    ensures StatusTag(VStr(s)) == Tag("status", s)
    ensures StatusTag(VDict(others + [Entry("status", VStr(s))])) == Tag("status", s)
    ensures StatusTag(VDict(others)) == Tag("status", "Not Present in Step Results")
    ensures StatusTag(VNone) == Tag("status", "Not Provided")
  {
    var d := others + [Entry("status", VStr(s))];
    assert d[|d| - 1] == Entry("status", VStr(s));
  }

  /** The URIs the step adds, in order: a lone string is wrapped, a list is taken whole, anything else adds none. */
  function UrisToAdd(uris: Value): (r: seq<Value>)
    ensures uris.VStr? ==> r == [uris]
    ensures uris.VList? ==> r == uris.items
    ensures !uris.VStr? && !uris.VList? ==> r == []
  {
    match uris
    case VStr(_) => [uris]
    case VList(items) => items
    case _ => []
  }

  /** A dict still to be walked, with the prefix its keys get. */
  datatype Frame = Frame(entries: seq<Entry>, prefix: string)

  /** The number of entries, at any depth of nested dicts. */
  function EntriesSize(entries: seq<Entry>): nat
    decreases entries
  {
    if entries == [] then 0
    else
      var v := entries[0].val;
      1 + (if v.VDict? then 1 + EntriesSize(v.entries) else 0) + EntriesSize(entries[1..])
  }

  function StackSize(stack: seq<Frame>): nat
  {
    if stack == [] then 0
    else StackSize(stack[..|stack| - 1]) + 1 + EntriesSize(stack[|stack| - 1].entries)
  }

  /**
   * The tags the flattening loop emits from a stack of dicts still to walk:
   * pop the last dict and go through its entries.
   */
  function Run(stack: seq<Frame>): seq<Tag>
    decreases StackSize(stack), 0
  {
    if stack == [] then []
    else
      var top := stack[|stack| - 1];
      Walk(top.entries, top.prefix, stack[..|stack| - 1])
  }

  /**
   * Going through the remaining `entries` of the popped dict: a nested dict
   * is pushed with its own key and a dot as prefix; any other value is a
   * tag now, keyed by the prefix and the entry's key.
   */
  function Walk(entries: seq<Entry>, prefix: string, stack: seq<Frame>): seq<Tag>
    decreases StackSize(stack) + EntriesSize(entries), 1
  {
    if entries == [] then Run(stack)
    else
      var e := entries[0];
      if e.val.VDict? then
        Walk(entries[1..], prefix, stack + [Frame(e.val.entries, e.key + ".")])
      else
        [Tag(prefix + e.key, Str(e.val))] + Walk(entries[1..], prefix, stack)
  }

  /**
   * The tags of a parameter dict, by structure: one per non-dict value at
   * any depth, keyed by the key of the dict that holds it (after a dot)
   * rather than by its full path.
   */
  function Leaves(entries: seq<Entry>, prefix: string): seq<Tag>
    decreases entries
  {
    if entries == [] then []
    else
      var e := entries[0];
      (if e.val.VDict? then Leaves(e.val.entries, e.key + ".") else [Tag(prefix + e.key, Str(e.val))])
      + Leaves(entries[1..], prefix)
  }

  /** The number of non-dict values at any depth. */
  function LeafCount(entries: seq<Entry>): nat
    decreases entries
  {
    if entries == [] then 0
    else
      var e := entries[0];
      (if e.val.VDict? then LeafCount(e.val.entries) else 1) + LeafCount(entries[1..])
  }

  function StackLeaves(stack: seq<Frame>): seq<Tag>
  {
    if stack == [] then []
    else StackLeaves(stack[..|stack| - 1]) + Leaves(stack[|stack| - 1].entries, stack[|stack| - 1].prefix)
  }

  lemma {:induction false} LeavesCount(entries: seq<Entry>, prefix: string)
    ensures |Leaves(entries, prefix)| == LeafCount(entries)
    decreases entries
  {
    if entries != [] {
      var e := entries[0];
      if e.val.VDict? {
        LeavesCount(e.val.entries, e.key + ".");
      }
      LeavesCount(entries[1..], prefix);
    }
  }

  /** The loop emits the tags of every dict on the stack, in some order. */
  lemma {:induction false} RunLeaves(stack: seq<Frame>)
    ensures multiset(Run(stack)) == multiset(StackLeaves(stack))
    decreases StackSize(stack), 0
  {
    if stack != [] {
      var top := stack[|stack| - 1];
      WalkLeaves(top.entries, top.prefix, stack[..|stack| - 1]);
    }
  }

  lemma {:induction false} WalkLeaves(entries: seq<Entry>, prefix: string, stack: seq<Frame>)
    ensures multiset(Walk(entries, prefix, stack)) == multiset(Leaves(entries, prefix)) + multiset(StackLeaves(stack))
    decreases StackSize(stack) + EntriesSize(entries), 1
  {
    if entries == [] {
      RunLeaves(stack);
    } else {
      var e := entries[0];
      if e.val.VDict? {
        var f := Frame(e.val.entries, e.key + ".");
        var stack' := stack + [f];
        assert stack'[..|stack'| - 1] == stack;
        WalkLeaves(entries[1..], prefix, stack');
      } else {
        WalkLeaves(entries[1..], prefix, stack);
      }
    }
  }

  /**
   * The flattening emits exactly the tags of the structural reading, as
   * many as there are non-dict values at any depth.
   */
  lemma FlattenIsLeaves(params: seq<Entry>)
    ensures multiset(Run([Frame(params, "")])) == multiset(Leaves(params, ""))
    ensures |Run([Frame(params, "")])| == LeafCount(params)
  {
    RunLeaves([Frame(params, "")]);
    assert StackLeaves([Frame(params, "")]) == Leaves(params, "");
    LeavesCount(params, "");
    assert |multiset(Run([Frame(params, "")]))| == |multiset(Leaves(params, ""))|;
  }

  lemma WalkSingleDict(k: string, entries: seq<Entry>, prefix: string)
    ensures Walk([Entry(k, VDict(entries))], prefix, []) == Walk(entries, k + ".", [])
  {
    var f := Frame(entries, k + ".");
    assert [Entry(k, VDict(entries))][1..] == [];
    assert [] + [f] == [f] && [f][..0] == [];
    assert Walk([Entry(k, VDict(entries))], prefix, []) == Walk([], prefix, [f]);
    assert Walk([], prefix, [f]) == Run([f]);
  }

  lemma WalkSingleLeaf(k: string, v: Value, prefix: string)
    requires !v.VDict?
    ensures Walk([Entry(k, v)], prefix, []) == [Tag(prefix + k, Str(v))]
  {
    assert [Entry(k, v)][1..] == [];
  }

  /**
   * A value two dicts deep is keyed by its parent's key only:
   * `{a: {b: {c: v}}}` gives the tag `b.c`, not `a.b.c`.
   */
  lemma FlattenKeepsOnlyParentKey(a: string, b: string, c: string, v: Value)
    requires !v.VDict?
    ensures Run([Frame([Entry(a, VDict([Entry(b, VDict([Entry(c, v)]))]))], "")]) == [Tag(b + "." + c, Str(v))]
  {
    var inner := [Entry(c, v)];
    var middle := [Entry(b, VDict(inner))];
    var outer := [Entry(a, VDict(middle))];
    assert [Frame(outer, "")][..0] == [];
    WalkSingleDict(a, middle, "");
    WalkSingleDict(b, inner, a + ".");
    WalkSingleLeaf(c, v, b + ".");
  }

  lemma SliceTail(entries: seq<Entry>, i: int)
    requires 0 <= i < |entries|
    ensures entries[i..][0] == entries[i] && entries[i..][1..] == entries[i + 1..]
  {
  }

  lemma PopFrame(stack: seq<Frame>)
    requires stack != []
    ensures StackSize(stack) == StackSize(stack[..|stack| - 1]) + 1 + EntriesSize(stack[|stack| - 1].entries)
  {
  }

  lemma PushFrame(stack: seq<Frame>, f: Frame)
    ensures StackSize(stack + [f]) == StackSize(stack) + 1 + EntriesSize(f.entries)
  {
    assert (stack + [f])[..|stack|] == stack;
  }

  /**
   * The parameter flattening of `add_record_for_action_step`: a stack of
   * (dict, prefix) pairs, popped from the end; each non-dict value becomes
   * a tag call, each nested dict is pushed with its key and a dot.
   */
  method FlattenParameters(params: seq<Entry>) returns (tags: seq<Tag>)
    ensures tags == Run([Frame(params, "")])
    ensures multiset(tags) == multiset(Leaves(params, "")) && |tags| == LeafCount(params)
  {
    var stack := [Frame(params, "")];
    tags := [];
    while stack != []
      invariant tags + Run(stack) == Run([Frame(params, "")])
      decreases StackSize(stack)
    {
      ghost var size0 := StackSize(stack);
      var top := stack[|stack| - 1];
      stack := stack[..|stack| - 1];
      PopFrame(stack + [top]);
      assert (stack + [top])[..|stack|] == stack;
      var i := 0;
      while i < |top.entries|
        invariant 0 <= i <= |top.entries|
        invariant tags + Walk(top.entries[i..], top.prefix, stack) == Run([Frame(params, "")])
        invariant StackSize(stack) + EntriesSize(top.entries[i..]) < size0
      {
        var e := top.entries[i];
        SliceTail(top.entries, i);
        if e.val.VDict? {
          PushFrame(stack, Frame(e.val.entries, e.key + "."));
          stack := stack + [Frame(e.val.entries, e.key + ".")];
        } else {
          tags := tags + [Tag(top.prefix + e.key, Str(e.val))];
        }
        i := i + 1;
      }
    }
    FlattenIsLeaves(params);
  }

  /**
   * The tag calls the step makes on its record, in order: the status,
   * then the flattened parameters when they are a dict.
   */
  function StepTags(stepResult: Value, stepParameters: Value): (r: seq<Tag>)
    ensures |r| >= 1 && r[0] == StatusTag(stepResult)
    ensures stepParameters.VDict? ==> r[1..] == Run([Frame(stepParameters.entries, "")])
    ensures !stepParameters.VDict? ==> |r| == 1
  {
    [StatusTag(stepResult)]
    + (if stepParameters.VDict? then Run([Frame(stepParameters.entries, "")]) else [])
  }

  // ---------------------------------------------------------------------
  // Record ids and action ids reported by earlier steps
  // ---------------------------------------------------------------------

  /**
   * `v.get("details", {}).get("result", [dict()])[0].get(key, default)`: the
   * value an earlier step reported under `key`, as a flow passes it on.
   */
  function FromPriorResult(v: Value, key: string, default: Value): (r: Result<Value, PyError>)
    requires v.VDict?
  {
    var details := Get(v.entries, "details", VDict([]));
    if !details.VDict? then Err(AttributeError)
    else
      var result := Get(details.entries, "result", VList([VDict([])]));
      var first :=
        match result
        case VList(items) => if items == [] then Err(IndexError) else Ok(items[0])
        case VStr(s) => if s == [] then Err(IndexError) else Ok(VStr([s[0]]))
        case VDict(_) => Err(KeyError)
        case _ => Err(TypeError);
      if first.Err? then Err(first.error)
      else if !first.value.VDict? then Err(AttributeError)
      else Ok(Get(first.value.entries, key, default))
  }

  /** How a flow hands a step's returned dict to the next step. */
  function FlowReport(returned: Value): Value
  {
    VDict([Entry("details", VDict([Entry("result", VList([returned]))]))])
  }

  /** The dict `add_record_for_action_step` returns. */
  function StepReturn(recordId: Value, previousId: Value, previousName: Value, exception: Value): Value
  {
    VDict([Entry("flow_state_record_id", recordId), Entry("previous_step_record_id", previousId),
           Entry("previous_step_name", previousName), Entry("exception_str", exception)])
  }

  /** The dict `create_invalidation_action` returns. */
  function ActionReturn(actionId: string): Value
  {
    VDict([Entry("invalidation_action_id", VStr(actionId))])
  }

  /** A step's reported record id reads back through the flow. */
  lemma PriorStepRecordId(recordId: Value, previousId: Value, previousName: Value, exception: Value)
    ensures FromPriorResult(FlowReport(StepReturn(recordId, previousId, previousName, exception)),
                            "flow_state_record_id", VInt(-1)) == Ok(recordId)
  {
    var k := "flow_state_record_id";
    var e0 := Entry(k, recordId);
    var e1 := Entry("previous_step_record_id", previousId);
    var e2 := Entry("previous_step_name", previousName);
    var e3 := Entry("exception_str", exception);
    assert Lookup([e0], k) == Some(recordId);
    LookupSkipLast([e0], e1, k);
    assert [e0] + [e1] == [e0, e1];
    LookupSkipLast([e0, e1], e2, k);
    assert [e0, e1] + [e2] == [e0, e1, e2];
    LookupSkipLast([e0, e1, e2], e3, k);
    var es := StepReturn(recordId, previousId, previousName, exception).entries;
    assert es == [e0, e1, e2] + [e3];
    assert Get(es, k, VInt(-1)) == recordId;
  }

  /** An entry under another key does not change what a key finds. */
  lemma LookupSkipLast(entries: seq<Entry>, e: Entry, key: string)
    requires e.key != key
    ensures Lookup(entries + [e], key) == Lookup(entries, key)
  {
    assert (entries + [e])[..|entries|] == entries;
  }

  /** An invalidation action's reported id reads back through the flow. */
  lemma PriorActionId(actionId: string)
    ensures FromPriorResult(FlowReport(ActionReturn(actionId)), "invalidation_action_id", VStr("")) == Ok(VStr(actionId))
  {
  }

  /** An earlier result with nothing under `details` gives the default. */
  lemma PriorResultDefault(key: string, default: Value)
    ensures FromPriorResult(VDict([]), key, default) == Ok(default)
  {
  }

  /** An integer sqlite can store and bind: a signed 64-bit one. */
  predicate FitsSqliteInt(i: int)
  {
    -0x8000_0000_0000_0000 <= i < 0x8000_0000_0000_0000
  }

  /**
   * What a lookup by record id does with `w`: an integer within 64 bits is
   * the key (a bool counts as 0 or 1); a wider integer, a list or a dict
   * makes the driver raise; any other value binds but matches no record.
   */
  function RecordKey(w: Value): (r: Result<Option<int>, PyError>)
    ensures r.Err? <==> (w.VInt? && !FitsSqliteInt(w.i)) || w.VList? || w.VDict?
    ensures r.Err? ==> r.error == (if w.VInt? then OverflowError else InterfaceError)
    ensures r.Ok? ==> (r.value.Some? <==> w.VInt? || w.VBool?)
    ensures r.Ok? && w.VInt? ==> r.value == Some(w.i)
  {
    match w
    case VInt(i) => if FitsSqliteInt(i) then Ok(Some(i)) else Err(OverflowError)
    case VBool(b) => Ok(Some(if b then 1 else 0))
    case VList(_) => Err(InterfaceError)
    case VDict(_) => Err(InterfaceError)
    case _ => Ok(None)
  }

  /** The stored record a lookup by `w` finds, if any. */
  predicate Finds(w: Value, names: map<int, string>)
  {
    RecordKey(w).Ok? && RecordKey(w).value.Some? && RecordKey(w).value.value in names
  }

  /**
   * What the step learns about its predecessor: the id as finally resolved,
   * the predecessor's name or a not-found message, the exception that cut
   * the resolution short, and the id the new derivation row links from.
   */
  datatype PreviousStep = PreviousStep(recordId: Value, name: Option<string>, error: Option<PyError>, linkedFrom: Option<int>)

  function LookupPrevious(w: Value, names: map<int, string>): (r: PreviousStep)
    ensures r.recordId == w
    ensures r.error.Some? <==> RecordKey(w).Err?
    ensures r.error.Some? ==> r.error == Some(RecordKey(w).error) && r.name.None? && r.linkedFrom.None?
    ensures r.linkedFrom.Some? <==> Finds(w, names)
    ensures r.linkedFrom.Some? ==> RecordKey(w) == Ok(r.linkedFrom) && r.name == Some(names[r.linkedFrom.value])
    ensures r.error.None? && r.linkedFrom.None? ==> r.name == Some("Unable to get record by id for " + Str(w))
  {
    var key := RecordKey(w);
    if key.Err? then PreviousStep(w, None, Some(key.error), None)
    else if key.value.Some? && key.value.value in names then PreviousStep(w, Some(names[key.value.value]), None, key.value)
    else PreviousStep(w, Some("Unable to get record by id for " + Str(w)), None, None)
  }

  /**
   * The `previous_step_record_id` handling of `add_record_for_action_step`
   * over the stored records' names by id.
   */
  function LinkPreviousStep(previous: Value, names: map<int, string>): (r: PreviousStep)
    ensures previous.VNone? ==> r == PreviousStep(VNone, None, None, None)
    ensures r.error.Some? ==> r.name.None? && r.linkedFrom.None?
    ensures r.linkedFrom.Some? ==> r.linkedFrom.value in names && r.name == Some(names[r.linkedFrom.value])
  {
    if previous.VNone? then PreviousStep(VNone, None, None, None)
    else
      var resolved := if previous.VDict? then FromPriorResult(previous, "flow_state_record_id", VInt(-1)) else Ok(previous);
      if resolved.Err? then PreviousStep(previous, None, Some(resolved.error), None)
      else
        var w := resolved.value;
        if w.VStr? then
          match ParsePyInt(w.s)
          case None => PreviousStep(w, None, Some(ValueError), None)
          case Some(n) => LookupPrevious(VInt(n), names)
        else LookupPrevious(w, names)
  }

  /** An id given as text is the same predecessor as the id itself. */
  lemma LinkByText(n: int, names: map<int, string>)
    ensures LinkPreviousStep(VStr(IntToDecimal(n)), names) == LinkPreviousStep(VInt(n), names)
  {
    ParsePrintedInt(n);
  }

  /** A step fed the flow report of an earlier step links from that step's record. */
  lemma LinkByPriorStep(n: int, previousId: Value, previousName: Value, exception: Value, names: map<int, string>)
    requires n in names && FitsSqliteInt(n)
    ensures var r := LinkPreviousStep(FlowReport(StepReturn(VInt(n), previousId, previousName, exception)), names);
      r == PreviousStep(VInt(n), Some(names[n]), None, Some(n))
  {
    PriorStepRecordId(VInt(n), previousId, previousName, exception);
  }

  /**
   * An id the driver cannot bind, given directly or as the record id of an
   * earlier step's report, is caught: the driver's exception, no name and no link.
   */
  lemma LinkUnbindable(w: Value, previousId: Value, previousName: Value, exception: Value, names: map<int, string>)
    requires RecordKey(w).Err?
    ensures !w.VDict? ==> LinkPreviousStep(w, names) == PreviousStep(w, None, Some(RecordKey(w).error), None)
    ensures LinkPreviousStep(FlowReport(StepReturn(w, previousId, previousName, exception)), names)
         == PreviousStep(w, None, Some(RecordKey(w).error), None)
  {
    PriorStepRecordId(w, previousId, previousName, exception);
  }

  /** Text that is not a number stops the resolution with a ValueError and links nothing. */
  lemma LinkByBadText(s: string, names: map<int, string>)
    requires ParsePyInt(s).None?
    ensures LinkPreviousStep(VStr(s), names) == PreviousStep(VStr(s), None, Some(ValueError), None)
  {
  }

  // ---------------------------------------------------------------------
  // The step as a whole
  // ---------------------------------------------------------------------

  /**
   * What one call of `add_record_for_action_step` leaves behind: the records
   * it stores, the tag and URI calls that take effect, the predecessor
   * handling when it is reached, and the exception that escapes, if any.
   */
  datatype StepEffect = StepEffect(recordsStored: nat, tags: seq<Tag>, uris: seq<Value>,
                                   previous: Option<PreviousStep>, raised: Option<PyError>)

  /**
   * The step as written: reading `record_id` stores the new record, then the
   * first `add_tag` call passes a `session` keyword that `BraidRecord.add_tag`
   * does not take, so Python raises TypeError before any tag, URI or link.
   */
  function ActionStepAsWritten(stepResult: Value, stepParameters: Value, uris: Value,
                               previous: Value, names: map<int, string>): (r: StepEffect)
    ensures r.raised == Some(TypeError)
    ensures r.recordsStored == 1 && r.tags == [] && r.uris == [] && r.previous.None?
  {
    StepEffect(1, [], [], None, Some(TypeError))
  }

  /**
   * The step as its callers and the flows expect it: the record, its status
   * and parameter tags, its URIs, and the predecessor link, with no escaping
   * exception (a failed predecessor lookup is caught and reported).
   */
  function ActionStep(stepResult: Value, stepParameters: Value, uris: Value,
                      previous: Value, names: map<int, string>): (r: StepEffect)
    ensures r.raised.None? && r.recordsStored == 1
    ensures |r.tags| >= 1 && r.tags[0] == StatusTag(stepResult)
    ensures stepParameters.VDict? ==> multiset(r.tags[1..]) == multiset(Leaves(stepParameters.entries, ""))
    ensures !stepParameters.VDict? ==> |r.tags| == 1
    ensures uris.VStr? ==> r.uris == [uris]
    ensures uris.VList? ==> r.uris == uris.items
    ensures r.previous == Some(LinkPreviousStep(previous, names))
  {
    var effect := StepEffect(1, StepTags(stepResult, stepParameters), UrisToAdd(uris),
                             Some(LinkPreviousStep(previous, names)), None);
    if stepParameters.VDict? then FlattenIsLeaves(stepParameters.entries); effect else effect
  }

  /**
   * The discrepancy: on every input the written step stops with TypeError
   * and loses at least the status tag that the intended step records.
   */
  lemma SessionKeywordLosesTags(stepResult: Value, stepParameters: Value, uris: Value,
                                previous: Value, names: map<int, string>)
    ensures ActionStepAsWritten(stepResult, stepParameters, uris, previous, names).raised == Some(TypeError)
    ensures ActionStep(stepResult, stepParameters, uris, previous, names).raised.None?
    ensures |ActionStepAsWritten(stepResult, stepParameters, uris, previous, names).tags|
          < |ActionStep(stepResult, stepParameters, uris, previous, names).tags|
  {
  }

  // ---------------------------------------------------------------------
  // Invalidation actions
  // ---------------------------------------------------------------------

  /**
   * The checks of `create_invalidation_action` and the parameters it
   * stores: a command is required, and parameters, when given, must be a
   * list, stored as `{"args": params}`.
   */
  function InvalidationActionParams(command: Value, params: Value): (r: Result<Option<Value>, PyError>)
    ensures r.Ok? <==> !command.VNone? && (params.VNone? || params.VList?)
    ensures r.Err? ==> r.error == ValueError
    ensures r.Ok? ==> (r.value.None? <==> params.VNone?)
    ensures r.Ok? && r.value.Some? ==> r.value.value.VDict? && Lookup(r.value.value.entries, "args") == Some(params)
  {
    if command.VNone? then Err(ValueError)
    else if !params.VNone? && !params.VList? then Err(ValueError)
    else if params.VNone? then Ok(None)
    else Ok(Some(VDict([Entry("args", params)])))
  }

  /** The record and action an `add_invalidation_action_to_record` call binds. */
  datatype Binding = Binding(recordId: Value, key: int, actionId: Value)

  /** `isinstance(record_id, (dict, str, int))`; a bool is an int in Python. */
  predicate RecordIdShape(v: Value)
  {
    v.VDict? || v.VStr? || v.VInt? || v.VBool?
  }

  /** `isinstance(invalidation_action_id, (dict, str))`. */
  predicate ActionIdShape(v: Value)
  {
    v.VDict? || v.VStr?
  }

  /**
   * The argument handling of `add_invalidation_action_to_record`: shape
   * checks, record id resolution, the record lookup, then the action id
   * resolution.
   */
  function BindInvalidationAction(recordId: Value, actionId: Value, names: map<int, string>): (r: Result<Binding, PyError>)
    ensures !RecordIdShape(recordId) || !ActionIdShape(actionId) ==> r == Err(ValueError)
    ensures r.Ok? ==> RecordKey(r.value.recordId) == Ok(Some(r.value.key)) && r.value.key in names
    ensures r.Ok? && actionId.VStr? ==> r.value.actionId == actionId
  {
    if !RecordIdShape(recordId) || !ActionIdShape(actionId) then Err(ValueError)
    else
      var resolved := if recordId.VDict? then FromPriorResult(recordId, "flow_state_record_id", VInt(-1)) else Ok(recordId);
      if resolved.Err? then Err(resolved.error)
      else
        var w :=
          if resolved.value.VStr? then
            match ParsePyInt(resolved.value.s)
            case None => Err(ValueError)
            case Some(n) => Ok(VInt(n))
          else Ok(resolved.value);
        if w.Err? then Err(w.error)
        else
          var key := RecordKey(w.value);
          if key.Err? then Err(key.error)
          else if key.value.None? || key.value.value !in names then Err(ValueError)
          else
            var action := if actionId.VDict? then FromPriorResult(actionId, "invalidation_action_id", VStr("")) else Ok(actionId);
            if action.Err? then Err(action.error)
            else Ok(Binding(w.value, key.value.value, action.value))
  }

  /**
   * Chaining the steps of a flow: the reports of `add_record_for_action_step`
   * and `create_invalidation_action` bind the action to the step's record.
   */
  lemma BindFromPriorSteps(n: int, actionId: string, previousId: Value, previousName: Value, exception: Value,
                           names: map<int, string>)
    requires n in names && FitsSqliteInt(n)
    ensures BindInvalidationAction(FlowReport(StepReturn(VInt(n), previousId, previousName, exception)),
                                   FlowReport(ActionReturn(actionId)), names)
         == Ok(Binding(VInt(n), n, VStr(actionId)))
  {
    PriorStepRecordId(VInt(n), previousId, previousName, exception);
    PriorActionId(actionId);
  }

  /** A record id within sqlite's range that names no stored record is refused. */
  lemma BindUnknownRecord(n: int, actionId: Value, names: map<int, string>)
    requires n !in names && FitsSqliteInt(n) && ActionIdShape(actionId)
    ensures BindInvalidationAction(VInt(n), actionId, names) == Err(ValueError)
    ensures BindInvalidationAction(VStr(IntToDecimal(n)), actionId, names) == Err(ValueError)
  {
    ParsePrintedInt(n);
  }

  /** A record id too wide for sqlite makes the lookup itself raise, whatever is stored. */
  lemma BindOutOfRange(n: int, actionId: Value, names: map<int, string>)
    requires !FitsSqliteInt(n) && ActionIdShape(actionId)
    ensures BindInvalidationAction(VInt(n), actionId, names) == Err(OverflowError)
    ensures BindInvalidationAction(VStr(IntToDecimal(n)), actionId, names) == Err(OverflowError)
  {
    ParsePrintedInt(n);
  }

  /** A record id, as a number or as its decimal text, that names a stored record binds to that record. */
  lemma BindKnownRecord(n: int, actionId: string, names: map<int, string>)
    requires n in names && FitsSqliteInt(n)
    ensures BindInvalidationAction(VInt(n), VStr(actionId), names) == Ok(Binding(VInt(n), n, VStr(actionId)))
    ensures BindInvalidationAction(VStr(IntToDecimal(n)), VStr(actionId), names) == Ok(Binding(VInt(n), n, VStr(actionId)))
  {
    ParsePrintedInt(n);
  }

  // ---------------------------------------------------------------------
  // The registration cache
  // ---------------------------------------------------------------------

  datatype CachedFunction = CachedFunction(funcxUuid: string, implHash: string)

  /** One entry of the name-to-function map, in the map's order. */
  datatype NamedFunction = NamedFunction(name: string, cached: CachedFunction)

  /** The uuid of the first entry registered with this implementation hash. */
  function FirstHashMatch(entries: seq<NamedFunction>, hash: string): (r: Option<string>)
    ensures r.None? <==> forall j :: 0 <= j < |entries| ==> entries[j].cached.implHash != hash
  {
    if entries == [] then None
    else if entries[0].cached.implHash == hash then Some(entries[0].cached.funcxUuid)
    else FirstHashMatch(entries[1..], hash)
  }

  lemma {:induction false} FirstHashMatchAt(entries: seq<NamedFunction>, hash: string, i: int)
    requires 0 <= i < |entries| && entries[i].cached.implHash == hash
    requires forall j :: 0 <= j < i ==> entries[j].cached.implHash != hash
    ensures FirstHashMatch(entries, hash) == Some(entries[i].cached.funcxUuid)
  {
    if i > 0 {
      FirstHashMatchAt(entries[1..], hash, i - 1);
    }
  }

  /** `d[name]` in the name-to-function map. */
  function FindName(entries: seq<NamedFunction>, name: string): Option<CachedFunction>
  {
    if entries == [] then None
    else if entries[|entries| - 1].name == name then Some(entries[|entries| - 1].cached)
    else FindName(entries[..|entries| - 1], name)
  }

  /** `d[name] = value`: an entry already under the name is replaced in place, otherwise one is appended. */
  function SetName(entries: seq<NamedFunction>, name: string, value: CachedFunction): seq<NamedFunction>
  {
    if exists j :: 0 <= j < |entries| && entries[j].name == name then
      seq(|entries|, j requires 0 <= j < |entries| =>
        if entries[j].name == name then NamedFunction(name, value) else entries[j])
    else entries + [NamedFunction(name, value)]
  }

  lemma {:induction false} FindNameReplaced(entries: seq<NamedFunction>, name: string, value: CachedFunction, other: string)
    requires exists j :: 0 <= j < |entries| && entries[j].name == name
    ensures var updated := seq(|entries|, j requires 0 <= j < |entries| =>
                              if entries[j].name == name then NamedFunction(name, value) else entries[j]);
      FindName(updated, other) == if other == name then Some(value) else FindName(entries, other)
  {
    var updated := seq(|entries|, j requires 0 <= j < |entries| =>
                     if entries[j].name == name then NamedFunction(name, value) else entries[j]);
    var last := entries[|entries| - 1];
    var front := entries[..|entries| - 1];
    var updatedFront := seq(|front|, j requires 0 <= j < |front| =>
                          if front[j].name == name then NamedFunction(name, value) else front[j]);
    assert updated[..|updated| - 1] == updatedFront;
    if exists j :: 0 <= j < |front| && front[j].name == name {
      FindNameReplaced(front, name, value, other);
    } else {
      assert updatedFront == front;
    }
  }

  /** After `d[name] = value`, the name maps to the value and every other name is unchanged. */
  lemma SetNameFinds(entries: seq<NamedFunction>, name: string, value: CachedFunction, other: string)
    ensures FindName(SetName(entries, name, value), other) == if other == name then Some(value) else FindName(entries, other)
  {
    if exists j :: 0 <= j < |entries| && entries[j].name == name {
      FindNameReplaced(entries, name, value, other);
    } else {
      var updated := entries + [NamedFunction(name, value)];
      assert updated[..|updated| - 1] == entries;
    }
  }

  /** Once registered, a function whose hash the map lacked is found by that hash, under its new uuid. */
  lemma SetNameThenHit(entries: seq<NamedFunction>, name: string, uuid: string, hash: string)
    requires FirstHashMatch(entries, hash).None?
    ensures FirstHashMatch(SetName(entries, name, CachedFunction(uuid, hash)), hash) == Some(uuid)
  {
    var updated := SetName(entries, name, CachedFunction(uuid, hash));
    if exists j :: 0 <= j < |entries| && entries[j].name == name {
      var i :| 0 <= i < |entries| && entries[i].name == name;
      assert updated[i].cached.implHash == hash;
    } else {
      assert updated[|entries|].cached.implHash == hash;
    }
    OnlyMatch(updated, hash, uuid);
  }

  /** When every entry with the hash carries the same uuid, the first match gives that uuid. */
  lemma {:induction false} OnlyMatch(entries: seq<NamedFunction>, hash: string, uuid: string)
    requires forall j :: 0 <= j < |entries| && entries[j].cached.implHash == hash ==> entries[j].cached.funcxUuid == uuid
    requires exists j :: 0 <= j < |entries| && entries[j].cached.implHash == hash
    ensures FirstHashMatch(entries, hash) == Some(uuid)
  {
    if entries[0].cached.implHash != hash {
      var j :| 0 <= j < |entries| && entries[j].cached.implHash == hash;
      assert entries[1..][j - 1].cached.implHash == hash;
      OnlyMatch(entries[1..], hash, uuid);
    }
  }

  /** The name-to-function map a caller may pass in and keep. */
  class FunctionMap {
    var entries: seq<NamedFunction>

    constructor(entries: seq<NamedFunction>)
      ensures this.entries == entries
    {
      this.entries := entries;
    }
  }

  /** The cache file: the map saved on disk, empty when there is none. */
  class CacheFile {
    var saved: seq<NamedFunction>

    constructor(saved: seq<NamedFunction>)
      ensures this.saved == saved
    {
      this.saved := saved;
    }
  }

  /**
   * `get_funcx_id_for_function`, given the function's name, its
   * implementation hash and the uuid a registration would return: the
   * uuid of the first entry with that hash, else a fresh registration
   * stored under the name, written back to the file only when the map was
   * loaded from it.
   */
  method GetFuncxIdForFunction(file: CacheFile, fnMap: FunctionMap?, fnName: string, fnHash: string, newUuid: string)
    returns (uuid: string)
    modifies file, fnMap
    ensures var before := if fnMap == null then old(file.saved) else old(fnMap.entries);
      match FirstHashMatch(before, fnHash)
      case Some(u) =>
        && uuid == u && file.saved == old(file.saved)
        && (fnMap != null ==> fnMap.entries == old(fnMap.entries))
      case None =>
        && uuid == newUuid
        && (fnMap == null ==> file.saved == SetName(before, fnName, CachedFunction(newUuid, fnHash)))
        && (fnMap != null ==> file.saved == old(file.saved)
                              && fnMap.entries == SetName(before, fnName, CachedFunction(newUuid, fnHash)))
  {
    var loaded := fnMap == null;
    var entries := if loaded then file.saved else fnMap.entries;
    for i := 0 to |entries|
      invariant forall j :: 0 <= j < i ==> entries[j].cached.implHash != fnHash
    {
      if entries[i].cached.implHash == fnHash {
        FirstHashMatchAt(entries, fnHash, i);
        return entries[i].cached.funcxUuid;
      }
    }
    var updated := SetName(entries, fnName, CachedFunction(newUuid, fnHash));
    if loaded {
      file.saved := updated;
    } else {
      fnMap.entries := updated;
    }
    uuid := newUuid;
  }

  /** Asking twice for the same function registers it once: the second call finds the first's uuid. */
  method LookupTwiceRegistersOnce(fnName: string, fnHash: string, u1: string, u2: string)
    returns (first: string, second: string)
    ensures first == u1 && second == u1
  {
    var file := new CacheFile([]);
    first := GetFuncxIdForFunction(file, null, fnName, fnHash, u1);
    SetNameThenHit([], fnName, u1, fnHash);
    second := GetFuncxIdForFunction(file, null, fnName, fnHash, u2);
  }

  // ---------------------------------------------------------------------
  // add_records
  // ---------------------------------------------------------------------

  /** What `add_records` reports for one input: the added record, or the exception's text. */
  datatype RecordOutcome = Added(output: Value) | Failed(message: string)

  /** The inputs `add_records` goes through: a lone dict is wrapped, then the extra arguments follow. */
  function RecordInputs(recordDicts: Value, args: seq<Value>): (r: Result<seq<Value>, PyError>)
    ensures recordDicts.VDict? ==> r == Ok([recordDicts] + args)
    ensures recordDicts.VList? ==> r == Ok(recordDicts.items + args)
    ensures !recordDicts.VDict? && !recordDicts.VList? ==> r == Err(AttributeError)
  {
    match recordDicts
    case VDict(_) => Ok([recordDicts] + args)
    case VList(items) => Ok(items + args)
    case _ => Err(AttributeError)
  }

  /** One outcome per dict among the inputs, in order; other inputs are skipped. */
  function Outcomes(inputs: seq<Value>, addRecord: Value -> Result<Value, string>): seq<RecordOutcome>
  {
    if inputs == [] then []
    else
      var last := inputs[|inputs| - 1];
      Outcomes(inputs[..|inputs| - 1], addRecord)
      + (if last.VDict? then [match addRecord(last) case Ok(out) => Added(out) case Err(msg) => Failed(msg)] else [])
  }

  function DictCount(inputs: seq<Value>): nat
  {
    if inputs == [] then 0
    else DictCount(inputs[..|inputs| - 1]) + (if inputs[|inputs| - 1].VDict? then 1 else 0)
  }

  lemma {:induction false} OutcomesCount(inputs: seq<Value>, addRecord: Value -> Result<Value, string>)
    ensures |Outcomes(inputs, addRecord)| == DictCount(inputs)
  {
    if inputs != [] {
      OutcomesCount(inputs[..|inputs| - 1], addRecord);
    }
  }

  lemma {:induction false} OutcomesAppend(a: seq<Value>, b: seq<Value>, addRecord: Value -> Result<Value, string>)
    ensures Outcomes(a + b, addRecord) == Outcomes(a, addRecord) + Outcomes(b, addRecord)
    decreases |b|
  {
    if b == [] {
      assert a + b == a;
    } else {
      var b' := b[..|b| - 1];
      assert (a + b)[..|a + b| - 1] == a + b';
      OutcomesAppend(a, b', addRecord);
    }
  }

  /** A lone dict is one record: its outcome comes first, then those of the extra arguments. */
  lemma SingleDictFirst(d: seq<Entry>, args: seq<Value>, addRecord: Value -> Result<Value, string>)
    ensures var outs := Outcomes([VDict(d)] + args, addRecord);
      |outs| == 1 + DictCount(args)
      && outs[0] == match addRecord(VDict(d)) case Ok(out) => Added(out) case Err(msg) => Failed(msg)
  {
    OutcomesAppend([VDict(d)], args, addRecord);
    OutcomesCount([VDict(d)] + args, addRecord);
    OutcomesCount(args, addRecord);
    assert [VDict(d)][..0] == [];
  }

  /**
   * `add_records`: wraps the input, then tries every dict in turn, given
   * what adding one record gives (its output dict, or the text of the
   * exception it raised).
   */
  method AddRecords(recordDicts: Value, args: seq<Value>, addRecord: Value -> Result<Value, string>)
    returns (r: Result<seq<RecordOutcome>, PyError>)
    ensures RecordInputs(recordDicts, args).Err? ==> r == Err(AttributeError)
    ensures RecordInputs(recordDicts, args).Ok? ==> r == Ok(Outcomes(RecordInputs(recordDicts, args).value, addRecord))
    ensures r.Ok? ==> |r.value| == DictCount(RecordInputs(recordDicts, args).value)
  {
    var inputs :- RecordInputs(recordDicts, args);
    var outputs := [];
    for i := 0 to |inputs|
      invariant outputs == Outcomes(inputs[..i], addRecord)
    {
      assert inputs[..i + 1][..i] == inputs[..i];
      if inputs[i].VDict? {
        match addRecord(inputs[i]) {
          case Ok(out) => outputs := outputs + [Added(out)];
          case Err(msg) => outputs := outputs + [Failed(msg)];
        }
      }
    }
    assert inputs[..|inputs|] == inputs;
    OutcomesCount(inputs, addRecord);
    r := Ok(outputs);
  }
}
