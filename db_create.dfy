/**
 * The backup file name search of the two db-create tools
 * (src/braid_db/tools/db_create.py and src/tools/db-create.py): the first
 * name `<file>.<i>.bak`, with `i` counted from 1 and printed at least three
 * digits wide, that does not exist yet. The file system is the finite set
 * of names that exist.
 */
module BackupNames {
  import opened Text

  /** The index printed as `{i:03}` and `%03i` print it: zero padded to at least three digits. */
  function IndexText(i: nat): (s: string)
    ensures AllDigits(s) && DecimalValue(s) == i
    ensures |s| >= 3
  {
    ZeroPadValue(i, 3);
    ZeroPad(NatToDecimal(i), 3)
  }

  /** The candidate backup name for index `i`. */
  function BakName(filename: string, i: nat): string
  {
    filename + "." + IndexText(i) + ".bak"
  }

  /** The width is a minimum: indices of three digits or more are printed whole, never cut. */
  lemma IndexTextWidth(i: nat)
    ensures i < 1000 ==> |IndexText(i)| == 3
    ensures i >= 100 ==> IndexText(i) == NatToDecimal(i)
  {
    NatToDecimalLength(i);
    if i < 1000 {
      NatToDecimalLength(i / 10);
    }
  }

  /** Different indices give different names for the same file. */
  lemma BakNameInjective(filename: string, i: nat, j: nat)
    requires BakName(filename, i) == BakName(filename, j)
    ensures i == j
  {
    var a, b := IndexText(i), IndexText(j);
    var n := |filename| + 1;
    assert BakName(filename, i)[n..|BakName(filename, i)| - 4] == a;
    assert BakName(filename, j)[n..|BakName(filename, j)| - 4] == b;
  }

  /** The names of indices `1 .. i - 1`. */
  ghost function Tried(filename: string, i: nat): set<string>
  {
    set j | 1 <= j < i :: BakName(filename, j)
  }

  /** The name for `i` is not among the names before it. */
  lemma TriedFresh(filename: string, i: nat)
    ensures BakName(filename, i) !in Tried(filename, i)
  {
    if BakName(filename, i) in Tried(filename, i) {
      var j :| 1 <= j < i && BakName(filename, j) == BakName(filename, i);
      BakNameInjective(filename, i, j);
    }
  }

  /** One more index tries exactly one more name. */
  lemma TriedStep(filename: string, i: nat)
    requires i >= 1
    ensures Tried(filename, i + 1) == Tried(filename, i) + {BakName(filename, i)}
  {
    var before, after := Tried(filename, i), Tried(filename, i + 1);
    forall s | s in after ensures s in before + {BakName(filename, i)} {
      var j :| 1 <= j < i + 1 && s == BakName(filename, j);
      if j < i {
        assert s in before;
      }
    }
  }

  /**
   * `find_next_bak`: counts `i` up from 1 until the name for `i` is free,
   * and returns that name: a free name, and every name before it taken.
   */
  method FindNextBak(filename: string, existing: set<string>) returns (fn: string)
    ensures fn !in existing
    ensures exists i: nat :: i >= 1 && fn == BakName(filename, i)
                            && forall j :: 1 <= j < i ==> BakName(filename, j) in existing
  {
    var i: nat := 1;
    fn := BakName(filename, i);
    while fn in existing
      invariant i >= 1 && fn == BakName(filename, i)
      invariant Tried(filename, i) <= existing
      invariant forall j :: 1 <= j < i ==> BakName(filename, j) in existing
      decreases existing - Tried(filename, i)
    {
      TriedStep(filename, i);
      TriedFresh(filename, i);
      i := i + 1;
      fn := BakName(filename, i);
    }
  }

  /** On a fresh directory the first backup is `<file>.001.bak`. */
  lemma FirstBakName(filename: string)
    ensures BakName(filename, 1) == filename + ".001.bak"
  {
    assert NatToDecimal(1) == "1" by {
      assert DigitChar(1) == '1';
    }
    assert Zeros(2) == "00" by {
      assert Zeros(1) == "0";
    }
    assert IndexText(1) == "001";
    assert filename + "." + "001" + ".bak" == filename + ".001.bak";
  }
}
