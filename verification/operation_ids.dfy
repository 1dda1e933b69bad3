/** Making operation ids unique by numeric suffixes. */
module OperationIds {
  import opened Common

  /** An operation: its id, and everything the deduplication copies unchanged. */
  datatype Operation<+Body> = Operation(id: string, body: Body)

  // Decimal printing

  /** Python's `str(n)`. */
  function Decimal(n: nat): (s: string)
    ensures s != "" && forall i :: 0 <= i < |s| ==> IsDigit(s[i])
  {
    var digit := ['0' + (n % 10) as char];
    if n < 10 then digit else Decimal(n / 10) + digit
  }

  lemma {:induction false} DecimalIsInjective(m: nat, n: nat)
    requires Decimal(m) == Decimal(n)
    ensures m == n
  {
    var s := Decimal(m);
    var last := s[|s| - 1];
    assert last == '0' + (m % 10) as char == '0' + (n % 10) as char;
    if m >= 10 && n >= 10 {
      assert Decimal(m / 10) == s[..|s| - 1] == Decimal(n / 10);
      DecimalIsInjective(m / 10, n / 10);
    }
  }

  /** The number that a text of decimal digits denotes. */
  function NumberOf(digits: string): int {
    if digits == "" then 0
    else
      var n := |digits| - 1;
      10 * NumberOf(digits[..n]) + (digits[n] as int - '0' as int)
  }

  /** The printed digits denote the number, and only zero begins with a zero. */
  lemma {:induction false} DecimalDenotes(n: nat)
    ensures NumberOf(Decimal(n)) == n && (n > 0 ==> Decimal(n)[0] != '0')
  {
    var digit := ['0' + (n % 10) as char];
    if n < 10 {
      assert digit[..0] == "";
    } else {
      DecimalDenotes(n / 10);
      assert Decimal(n)[..|Decimal(n)| - 1] == Decimal(n / 10);
    }
  }

  function Suffixed(id: string, count: nat): string { id + "_" + Decimal(count) }

  /** Python's `s.rfind("_")`. */
  function LastUnderscore(s: string): int {
    if s == "" then -1
    else if s[|s| - 1] == '_' then |s| - 1
    else LastUnderscore(s[..|s| - 1])
  }

  lemma {:induction false} LastUnderscoreBeforeDigits(a: string, digits: string)
    requires forall i :: 0 <= i < |digits| ==> IsDigit(digits[i])
    ensures LastUnderscore(a + "_" + digits) == |a|
  {
    var s := a + "_" + digits;
    if digits != "" {
      LastUnderscoreBeforeDigits(a, digits[..|digits| - 1]);
      assert s[..|s| - 1] == a + "_" + digits[..|digits| - 1];
    }
  }

  lemma SuffixIsInjective(a: string, m: nat, b: string, n: nat)
    requires Suffixed(a, m) == Suffixed(b, n)
    ensures a == b && m == n
  {
    var s := Suffixed(a, m);
    LastUnderscoreBeforeDigits(a, Decimal(m));
    LastUnderscoreBeforeDigits(b, Decimal(n));
    assert a == s[..|a|] == b;
    assert Decimal(m) == s[|a| + 1..] == Decimal(n);
    DecimalIsInjective(m, n);
  }

  // The deduplication

  /** How often an id occurs. */
  function Count<Body>(operations: seq<Operation<Body>>, id: string): nat {
    if operations == [] then 0
    else Count(operations[..|operations| - 1], id) + if operations[|operations| - 1].id == id then 1 else 0
  }

  /** The id operation `i` ends up with: its own the first time, then numbered from 1. */
  function NewId<Body>(operations: seq<Operation<Body>>, i: nat): string
    requires i < |operations|
  {
    var id := operations[i].id;
    var earlier := Count(operations[..i], id);
    if earlier == 0 then id else Suffixed(id, earlier)
  }

  method DeduplicateOperationIds<Body>(operations: seq<Operation<Body>>) returns (result: seq<Operation<Body>>)
    ensures |result| == |operations|
    ensures forall i :: 0 <= i < |operations| ==>
              result[i] == Operation(NewId(operations, i), operations[i].body)
  {
    var seen: map<string, nat> := map[];
    result := [];
    for n := 0 to |operations|
      invariant IsRenamed(result, operations, n)
      invariant HasSeen(seen, operations[..n])
    {
      SeenStep(seen, operations, n);
      var op := operations[n];
      var baseId := op.id;
      var count := if baseId in seen then seen[baseId] else 0;
      if count > 0 {
        op := op.(id := Suffixed(baseId, count));
      }
      seen := seen[baseId := count + 1];
      RenamedStep(result, operations, n, op);
      result := result + [op];
    }
  }

  /** The first `n` operations with their new ids. */
  ghost predicate IsRenamed<Body>(result: seq<Operation<Body>>, operations: seq<Operation<Body>>, n: nat)
    requires n <= |operations|
  {
    && |result| == n
    && forall i :: 0 <= i < n ==> result[i] == Operation(NewId(operations, i), operations[i].body)
  }

  lemma RenamedStep<Body>(
    result: seq<Operation<Body>>, operations: seq<Operation<Body>>, n: nat, op: Operation<Body>)
    requires n < |operations| && IsRenamed(result, operations, n)
    requires op == Operation(NewId(operations, n), operations[n].body)
    ensures IsRenamed(result + [op], operations, n + 1)
  {
  }

  /** The dictionary counts the ids of these operations. */
  ghost predicate HasSeen<Body>(seen: map<string, nat>, operations: seq<Operation<Body>>) {
    forall id :: Count(operations, id) == if id in seen then seen[id] else 0
  }

  lemma SeenStep<Body>(seen: map<string, nat>, operations: seq<Operation<Body>>, n: nat)
    requires n < |operations| && HasSeen(seen, operations[..n])
    ensures
      var id := operations[n].id;
      var count := if id in seen then seen[id] else 0;
      && HasSeen(seen[id := count + 1], operations[..n + 1])
      && NewId(operations, n) == if count > 0 then Suffixed(id, count) else id
  {
    assert operations[..n + 1][..n] == operations[..n];
  }

  lemma {:induction false} CountGrows<Body>(operations: seq<Operation<Body>>, i: nat, j: nat, id: string)
    requires i <= j <= |operations|
    ensures Count(operations[..i], id) <= Count(operations[..j], id)
    ensures forall k :: i <= k < j && operations[k].id == id ==> Count(operations[..i], id) < Count(operations[..j], id)
    decreases j
  {
    if i < j {
      CountGrows(operations, i, j - 1, id);
      assert operations[..j][..j - 1] == operations[..j - 1];
    }
  }

  /** Some id is another id with a number that the deduplication will append to it. */
  ghost predicate Clashes<Body>(operations: seq<Operation<Body>>) {
    exists i, j, n :: 0 <= i < |operations| && 0 <= j < |operations| && IsClash(operations, i, j, n)
  }

  predicate IsClash<Body>(operations: seq<Operation<Body>>, i: nat, j: nat, n: nat)
    requires i < |operations| && j < |operations|
  {
    0 < n < Count(operations, operations[j].id) && operations[i].id == Suffixed(operations[j].id, n)
  }

  ghost predicate PairwiseDistinctIds<Body>(operations: seq<Operation<Body>>) {
    forall i, j :: 0 <= i < j < |operations| ==> NewId(operations, i) != NewId(operations, j)
  }

  lemma {:induction false} OccurrenceNumbered<Body>(operations: seq<Operation<Body>>, id: string, n: nat) returns (k: nat)
    requires n < Count(operations, id)
    ensures k < |operations| && operations[k].id == id && Count(operations[..k], id) == n
  {
    var m := |operations| - 1;
    if n < Count(operations[..m], id) {
      k := OccurrenceNumbered(operations[..m], id, n);
      assert operations[..m][..k] == operations[..k];
    } else {
      k := m;
    }
  }

  /** Two operations that end up with the same id reveal a clash. */
  lemma EqualNewIdsClash<Body>(operations: seq<Operation<Body>>, i: nat, j: nat)
    requires i < j < |operations| && NewId(operations, i) == NewId(operations, j)
    ensures Clashes(operations)
  {
    var a, b := operations[i].id, operations[j].id;
    var m, n := Count(operations[..i], a), Count(operations[..j], b);
    assert operations[..|operations|] == operations;
    CountGrows(operations, i, |operations|, a);
    CountGrows(operations, j, |operations|, b);
    CountGrows(operations, i, j, a);
    if m > 0 && n > 0 {
      SuffixIsInjective(a, m, b, n);
    } else if m == 0 && n > 0 {
      assert IsClash(operations, i, j, n);
    } else if m > 0 && n == 0 {
      assert IsClash(operations, j, i, m);
    }
  }

  /** The ids come out pairwise distinct exactly when no input id clashes with an appended number. */
  lemma DistinctIffNoClash<Body>(operations: seq<Operation<Body>>)
    ensures PairwiseDistinctIds(operations) <==> !Clashes(operations)
  {
    if Clashes(operations) {
      var i, j, n :| 0 <= i < |operations| && 0 <= j < |operations| && IsClash(operations, i, j, n);
      var a, b := operations[i].id, operations[j].id;
      var first := FirstOccurrence(operations, i);
      var k := OccurrenceNumbered(operations, b, n);
      assert NewId(operations, first) == a == NewId(operations, k);
      assert |a| > |b| && first != k;
      var lo, hi := if first < k then first else k, if first < k then k else first;
      assert NewId(operations, lo) == NewId(operations, hi);
    } else if !PairwiseDistinctIds(operations) {
      var i, j :| 0 <= i < j < |operations| && NewId(operations, i) == NewId(operations, j);
      EqualNewIdsClash(operations, i, j);
    }
  }

  lemma FirstOccurrence<Body>(operations: seq<Operation<Body>>, i: nat) returns (first: nat)
    requires i < |operations|
    ensures first <= i && operations[first].id == operations[i].id
    ensures Count(operations[..first], operations[i].id) == 0
  {
    CountGrows(operations, i, i + 1, operations[i].id);
    first := OccurrenceNumbered(operations[..i + 1], operations[i].id, 0);
    assert operations[..i + 1][..first] == operations[..first];
  }

  /** The input a, a, a_1 comes out with a_1 twice. */
  lemma SuffixesCanClash<Body>(x: Body, y: Body, z: Body)
    ensures
      var operations := [Operation("a", x), Operation("a", y), Operation("a_1", z)];
      NewId(operations, 1) == NewId(operations, 2) == "a_1"
  {
    var operations := [Operation("a", x), Operation("a", y), Operation("a_1", z)];
    assert operations[..1] == [Operation("a", x)];
    assert operations[..2] == [Operation("a", x), Operation("a", y)];
    assert operations[..2][..1] == operations[..1] && operations[..1][..0] == [];
    assert |"a"| == 1 && |"a_1"| == 3;
    assert Count(operations[..1], "a") == 1 && Count(operations[..1], "a_1") == 0;
    assert Count(operations[..2], "a_1") == 0;
    assert Decimal(1) == "1";
  }
}
