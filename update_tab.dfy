/** The store-code comparison of the update tab (src/components/UpdateTab.tsx):
    generated listings whose canonical store code already exists among the
    current listings are dropped and counted. */
module UpdateTab {
  import opened JsValues
  import GmbConverter
  import opened Subsequences

  /** `canonical`, in one pass: each non-whitespace character, lower-cased. */
  function Canonical(v: string): (r: string)
    ensures |r| <= |v|
  {
    if v == [] then [] else (if IsSpace(v[0]) then [] else [Lower(v[0])]) + Canonical(v[1..])
  }

  /** The one-pass definition is the source's `toLowerCase` followed by the
      whitespace deletion; whitespace characters are the same before and
      after lower-casing, so the two steps could also run the other way. */
  lemma {:induction false} CanonicalIsLowerThenDrop(v: string)
    ensures Canonical(v) == DropSpaces(LowerStr(v))
    ensures Canonical(v) == LowerStr(DropSpaces(v))
  {
    if v != [] {
      LowerFacts(v[0]);
      CanonicalIsLowerThenDrop(v[1..]);
      assert LowerStr(v)[1..] == LowerStr(v[1..]);
    }
  }

  /** The canonical code has no whitespace and is already lower-case. */
  lemma {:induction false} CanonicalMeaning(v: string)
    ensures NoSpace(Canonical(v))
    ensures forall i :: 0 <= i < |Canonical(v)| ==> Lower(Canonical(v)[i]) == Canonical(v)[i]
  {
    if v != [] {
      LowerFacts(v[0]);
      CanonicalMeaning(v[1..]);
    }
  }

  lemma {:induction false} CanonicalFixed(s: string)
    requires NoSpace(s)
    requires forall i :: 0 <= i < |s| ==> Lower(s[i]) == s[i]
    ensures Canonical(s) == s
  {
    if s != [] {
      CanonicalFixed(s[1..]);
    }
  }

  /** Canonicalising a canonical code changes nothing. */
  lemma CanonicalIdempotent(v: string)
    ensures Canonical(Canonical(v)) == Canonical(v)
  {
    CanonicalMeaning(v);
    CanonicalFixed(Canonical(v));
  }

  /** Case and spacing do not distinguish two codes. */
  lemma CanonicalExample()
    ensures Canonical("A B") == "ab"
  {
  }

  lemma CanonicalExampleFixed()
    ensures Canonical("ab") == "ab"
  {
  }

  /** `canonical(String(row['Code de magasin'] || ''))` */
  function CodeOf(rec: Record): (r: string)
    ensures NoSpace(r)
  {
    CanonicalMeaning(ToStr(OrBlank(Get(rec, GmbConverter.CodeKey))));
    Canonical(ToStr(OrBlank(Get(rec, GmbConverter.CodeKey))))
  }

  /** `new Set(currentData.map(...))` */
  function ExistingCodes(current: seq<Record>): (r: set<string>)
    ensures forall c :: c in r ==> NoSpace(c)
  {
    if current == [] then {}
    else ExistingCodes(current[..|current| - 1]) + {CodeOf(current[|current| - 1])}
  }

  /** The code of every current listing is an existing code. */
  lemma {:induction false} ExistingCodesContain(current: seq<Record>, i: int)
    requires 0 <= i < |current|
    ensures CodeOf(current[i]) in ExistingCodes(current)
  {
    var n := |current| - 1;
    if i < n {
      ExistingCodesContain(current[..n], i);
      assert current[..n][i] == current[i];
    }
  }

  /** Every existing code is the code of some current listing. */
  lemma {:induction false} ExistingCodesOnly(current: seq<Record>, c: string) returns (i: int)
    requires c in ExistingCodes(current)
    ensures 0 <= i < |current| && CodeOf(current[i]) == c
  {
    var n := |current| - 1;
    if c == CodeOf(current[n]) {
      i := n;
    } else {
      i := ExistingCodesOnly(current[..n], c);
      assert current[..n][i] == current[i];
    }
  }

  /** Whether the filter callback keeps a generated row. */
  predicate IsNew(row: Record, codes: set<string>) {
    CodeOf(row) !in codes
  }

  /** The rows the filter keeps, in order. */
  function NewRows(rows: seq<Record>, codes: set<string>): (r: seq<Record>)
    ensures |r| <= |rows|
  {
    if rows == [] then []
    else
      var last := rows[|rows| - 1];
      NewRows(rows[..|rows| - 1], codes) + (if IsNew(last, codes) then [last] else [])
  }

  /** How many times the callback increments `duplicateCount`. */
  function DuplicateCount(rows: seq<Record>, codes: set<string>): (r: nat)
    ensures r <= |rows|
  {
    if rows == [] then 0
    else DuplicateCount(rows[..|rows| - 1], codes) + (if IsNew(rows[|rows| - 1], codes) then 0 else 1)
  }

  /** Every generated row is either kept or counted as a duplicate. */
  lemma {:induction false} NewRowsPlusDuplicates(rows: seq<Record>, codes: set<string>)
    ensures |NewRows(rows, codes)| + DuplicateCount(rows, codes) == |rows|
  {
    if rows != [] {
      NewRowsPlusDuplicates(rows[..|rows| - 1], codes);
    }
  }

  /** A row is among the kept rows exactly when it is a generated row whose
      code is not an existing code. */
  lemma {:induction false} NewRowsMembership(rows: seq<Record>, codes: set<string>)
    ensures forall x :: x in NewRows(rows, codes) <==> x in rows && IsNew(x, codes)
  {
    if rows != [] {
      var init := rows[..|rows| - 1];
      NewRowsMembership(init, codes);
      assert rows == init + [rows[|rows| - 1]];
    }
  }

  /** The kept rows are an order-preserving subsequence of the generated rows. */
  lemma {:induction false} NewRowsSubsequence(rows: seq<Record>, codes: set<string>)
    ensures IsSubsequence(NewRows(rows, codes), rows)
  {
    if rows != [] {
      var n := |rows| - 1;
      var init := rows[..n];
      var last := rows[n];
      assert rows == init + [last];
      NewRowsSubsequence(init, codes);
      if IsNew(last, codes) {
        assert NewRows(rows, codes) == NewRows(init, codes) + [last];
        SubsequenceAppendBoth(NewRows(init, codes), init, last);
      } else {
        assert NewRows(rows, codes) == NewRows(init, codes);
        SubsequenceExtend(NewRows(init, codes), init, last);
      }
    }
  }

  /** No deduplication among the generated rows: two rows with the same new
      code are both kept. */
  lemma RepeatedNewCodesAllKept(row: Record, twin: Record, codes: set<string>)
    requires IsNew(row, codes) && CodeOf(twin) == CodeOf(row)
    ensures NewRows([row, twin], codes) == [row, twin]
  {
    assert [row, twin][..1] == [row];
  }

  /** A generated row whose code differs from an existing one only by case
      and spacing is a duplicate. */
  lemma SpacingAndCaseMatch(existing: Record, generated: Record)
    requires Get(existing, GmbConverter.CodeKey) == Str("A B")
    requires Get(generated, GmbConverter.CodeKey) == Str("ab")
    ensures NewRows([generated], ExistingCodes([existing])) == []
    ensures DuplicateCount([generated], ExistingCodes([existing])) == 1
  {
    CanonicalExample();
    CanonicalExampleFixed();
    assert ToStr(OrBlank(Get(existing, GmbConverter.CodeKey))) == "A B";
    assert ToStr(OrBlank(Get(generated, GmbConverter.CodeKey))) == "ab";
    assert CodeOf(existing) == CodeOf(generated);
    assert [generated][..0] == [];
  }

  /** What the comparison ends with. */
  datatype Outcome =
    | ExportRows(rows: seq<Record>)  // `exportToGMBExcel(newRows, ...)`
    | NoNewLocations                 // the 'No new locations found' alert

  /** `new Set(currentData.map(l => canonical(...)))` */
  method CollectCodes(current: seq<Record>) returns (codes: set<string>)
    ensures codes == ExistingCodes(current)
  {
    codes := {};
    var j := 0;
    while j < |current|
      invariant 0 <= j <= |current|
      invariant codes == ExistingCodes(current[..j])
    {
      assert current[..j + 1][..j] == current[..j];
      codes := codes + {CodeOf(current[j])};
      j := j + 1;
    }
    assert current[..j] == current;
  }

  /** `generatedData.filter(...)` with its `duplicateCount += 1` side effect. */
  method FilterNew(generated: seq<Record>, existingCodes: set<string>)
    returns (newRows: seq<Record>, duplicateCount: nat)
    ensures newRows == NewRows(generated, existingCodes)
    ensures duplicateCount == DuplicateCount(generated, existingCodes)
  {
    newRows := [];
    duplicateCount := 0;
    var i := 0;
    while i < |generated|
      invariant 0 <= i <= |generated|
      invariant newRows == NewRows(generated[..i], existingCodes)
      invariant duplicateCount == DuplicateCount(generated[..i], existingCodes)
    {
      var row := generated[i];
      assert generated[..i + 1][..i] == generated[..i];
      if CodeOf(row) in existingCodes {
        duplicateCount := duplicateCount + 1;
      } else {
        newRows := newRows + [row];
      }
      i := i + 1;
    }
    assert generated[..i] == generated;
  }

  /** The body of `handleCompare`: builds the set of existing codes, filters
      the generated rows while counting the duplicates, then either exports
      the new rows or reports that there are none. */
  method Compare(current: seq<Record>, generated: seq<Record>)
    returns (newRows: seq<Record>, duplicateCount: nat, outcome: Outcome)
    ensures newRows == NewRows(generated, ExistingCodes(current))
    ensures duplicateCount == DuplicateCount(generated, ExistingCodes(current))
    ensures |newRows| + duplicateCount == |generated|
    ensures outcome == if |newRows| > 0 then ExportRows(newRows) else NoNewLocations
  {
    var existingCodes := CollectCodes(current);
    newRows, duplicateCount := FilterNew(generated, existingCodes);
    NewRowsPlusDuplicates(generated, existingCodes);
    if |newRows| > 0 {
      outcome := ExportRows(newRows);
    } else {
      outcome := NoNewLocations;
    }
  }
}
