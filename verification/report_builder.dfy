/**
 * The report builder: orders the collected rows ascending by (account label, key status),
 * comparing both as plain strings, and produces no report at all when there are no rows.
 */
module ReportBuilder {
  import opened Options
  import opened ReportRow
  import opened Lexical
  import opened SortedKeys

  /** `x` may precede `y` in the report: by label first, then by key-status text. */
  predicate KeyLe(x: Row, y: Row) {
    || Less(x.account, y.account)
    || (x.account == y.account && LessOrEqual(x.keyStatus, y.keyStatus))
  }

  lemma KeyLeTotal(x: Row, y: Row)
    ensures KeyLe(x, y) || KeyLe(y, x)
  {
    LessTrichotomous(x.account, y.account);
    LessOrEqualTotal(x.keyStatus, y.keyStatus);
  }

  lemma KeyLeTransitive(x: Row, y: Row, z: Row)
    requires KeyLe(x, y) && KeyLe(y, z)
    ensures KeyLe(x, z)
  {
    if Less(x.account, y.account) && Less(y.account, z.account) {
      LessTransitive(x.account, y.account, z.account);
    } else if x.account == y.account && y.account == z.account {
      LessOrEqualTransitive(x.keyStatus, y.keyStatus, z.keyStatus);
    }
  }

  /** Rows ordered both ways hold the same label and the same key status. */
  lemma KeyLeAntisymmetric(x: Row, y: Row)
    requires KeyLe(x, y) && KeyLe(y, x)
    ensures x.account == y.account && x.keyStatus == y.keyStatus
  {
    LessTrichotomous(x.account, y.account);
    if x.account == y.account {
      LessOrEqualAntisymmetric(x.keyStatus, y.keyStatus);
    }
  }

  /** Every row may precede every later row. */
  predicate Sorted(rows: seq<Row>) {
    forall i, j :: 0 <= i < j < |rows| ==> KeyLe(rows[i], rows[j])
  }

  lemma PrependSorted(x: Row, rows: seq<Row>)
    requires Sorted(rows)
    requires forall y :: y in rows ==> KeyLe(x, y)
    ensures Sorted([x] + rows)
  {
  }

  /** Places `x` into an already sorted sequence. */
  function Insert(x: Row, rows: seq<Row>): (r: seq<Row>)
    requires Sorted(rows)
    ensures Sorted(r)
    ensures multiset(r) == multiset(rows) + multiset{x}
    decreases |rows|
  {
    if |rows| == 0 then [x]
    else if KeyLe(x, rows[0]) then
      assert forall y :: y in rows ==> KeyLe(x, y) by {
        forall y | y in rows
          ensures KeyLe(x, y)
        {
          var j :| 0 <= j < |rows| && rows[j] == y;
          if j > 0 {
            KeyLeTransitive(x, rows[0], y);
          }
        }
      }
      PrependSorted(x, rows);
      [x] + rows
    else
      var rest := Insert(x, rows[1..]);
      assert rows == [rows[0]] + rows[1..];
      assert forall y :: y in rest ==> KeyLe(rows[0], y) by {
        forall y | y in rest
          ensures KeyLe(rows[0], y)
        {
          assert y in multiset(rest);
          if y == x {
            KeyLeTotal(x, rows[0]);
          } else {
            assert y in multiset(rows[1..]);
            var j :| 0 <= j < |rows[1..]| && rows[1..][j] == y;
            assert rows[j + 1] == y;
          }
        }
      }
      PrependSorted(rows[0], rest);
      [rows[0]] + rest
  }

  /** Insertion sort on the report key: a sorted permutation of `rows`. */
  function SortRows(rows: seq<Row>): (r: seq<Row>)
    ensures Sorted(r)
    ensures multiset(r) == multiset(rows)
    decreases |rows|
  {
    if |rows| == 0 then []
    else
      assert rows == [rows[0]] + rows[1..];
      Insert(rows[0], SortRows(rows[1..]))
  }

  /**
   * `sort_values(by=['CUENTA', 'KeyStatus'])` guarded by `if self.all_data`: no report for
   * an empty collection, otherwise every collected row exactly once, in key order.
   */
  function BuildReport(rows: seq<Row>): (report: Option<seq<Row>>)
    ensures report.None? <==> |rows| == 0
    ensures report.Some? ==> Sorted(report.value) && multiset(report.value) == multiset(rows)
    ensures report.Some? ==> |report.value| == |rows|
  {
    if |rows| == 0 then None
    else
      var sorted := SortRows(rows);
      assert |sorted| == |multiset(sorted)| == |multiset(rows)| == |rows|;
      Some(sorted)
  }

  /** The part of a row the report is ordered by. */
  function SortKey(r: Row): (string, string) {
    (r.account, r.keyStatus)
  }

  /** `KeyLe` is a total preorder whose ties are exactly rows with the same (label, status). */
  lemma KeyLeIsPreorderOnKeys()
    ensures PreorderOnKeys(KeyLe, SortKey)
  {
    forall x, y
      ensures KeyLe(x, y) || KeyLe(y, x)
    {
      KeyLeTotal(x, y);
    }
    forall x, y, z | KeyLe(x, y) && KeyLe(y, z)
      ensures KeyLe(x, z)
    {
      KeyLeTransitive(x, y, z);
    }
    forall x, y | KeyLe(x, y) && KeyLe(y, x)
      ensures SortKey(x) == SortKey(y)
    {
      KeyLeAntisymmetric(x, y);
    }
  }

  /**
   * The order is determined up to ties: any two sorted arrangements of the same rows
   * agree, position by position, on label and key status. Which of two tied rows comes
   * first is all that is left open.
   */
  lemma SortedPermutationsAgree(a: seq<Row>, b: seq<Row>)
    requires Sorted(a) && Sorted(b)
    requires multiset(a) == multiset(b)
    ensures |a| == |b|
    ensures forall i :: 0 <= i < |a| ==> SortKey(a[i]) == SortKey(b[i])
  {
    KeyLeIsPreorderOnKeys();
    assert SortedBy(KeyLe, a) && SortedBy(KeyLe, b);
    SortedPermutationsAgreeOnKeys(KeyLe, SortKey, a, b);
  }

  /** In a sorted report the rows of one account are contiguous. */
  lemma AccountsContiguous(r: seq<Row>, i: nat, k: nat, j: nat)
    requires Sorted(r)
    requires i < k < j < |r|
    requires r[i].account == r[j].account
    ensures r[k].account == r[i].account
  {
    assert KeyLe(r[i], r[k]) && KeyLe(r[k], r[j]);
    if r[k].account != r[i].account {
      LessTrichotomous(r[i].account, r[k].account);
      if Less(r[i].account, r[k].account) {
        LessTrichotomous(r[k].account, r[j].account);
        LessTransitive(r[i].account, r[k].account, r[j].account);
        LessIrreflexive(r[i].account);
      }
    }
  }

  /**
   * Within one account of a sorted report the key statuses run "Active", then "Inactive",
   * then the keyless "None": no row is followed by a row of an earlier status.
   */
  lemma StatusOrderWithinAccount(r: seq<Row>, i: nat, j: nat)
    requires Sorted(r)
    requires i < j < |r|
    requires r[i].account == r[j].account
    ensures r[i].keyStatus in {"Inactive", NoneText} ==> r[j].keyStatus != "Active"
    ensures r[i].keyStatus == NoneText ==> r[j].keyStatus !in {"Active", "Inactive"}
  {
    assert KeyLe(r[i], r[j]);
    LessIrreflexive(r[i].account);
    StatusOrder();
  }
}
