/**
 * `cn`: joins class names, dropping the falsy ones, with single spaces.
 */
module ClassNames {
  import JsValues

  /** What `cn` accepts: a string, `false`, `null` or `undefined`. */
  datatype ClassValue = Text(s: string) | False | Null | Undefined

  /** The JavaScript value an argument is. */
  function AsJs(v: ClassValue): JsValues.JsValue {
    match v
    case Text(s) => JsValues.Str(s)
    case False => JsValues.Bool(false)
    case Null => JsValues.Null
    case Undefined => JsValues.Undefined
  }

  /** `Boolean(v)` on an argument. */
  predicate Truthy(v: ClassValue) {
    JsValues.Truthy(AsJs(v))
  }

  /** `inputs.filter(Boolean)`, as the strings that survive, in order. */
  function Kept(inputs: seq<ClassValue>): (r: seq<string>)
    ensures |r| <= |inputs|
    ensures forall i :: 0 <= i < |r| ==> r[i] != []
  {
    if inputs == [] then []
    else (if Truthy(inputs[0]) then [inputs[0].s] else []) + Kept(inputs[1..])
  }

  /** `parts.join(sep)`. */
  function Join(parts: seq<string>, sep: string): string {
    if parts == [] then ""
    else if |parts| == 1 then parts[0]
    else parts[0] + sep + Join(parts[1..], sep)
  }

  /**
   * `cn(...inputs)`. Its length is that of the kept strings plus one
   * separator between each neighbouring pair: `k` kept strings add `k - 1`
   * spaces.
   */
  function Cn(inputs: seq<ClassValue>): (r: string)
    ensures var kept := Kept(inputs);
      |r| == TotalLength(kept) + (if kept == [] then 0 else |kept| - 1)
  {
    JoinLength(Kept(inputs), " ");
    Join(Kept(inputs), " ")
  }

  function TotalLength(parts: seq<string>): nat {
    if parts == [] then 0 else |parts[0]| + TotalLength(parts[1..])
  }

  /** Filtering distributes over concatenation, which keeps the inputs' order. */
  lemma {:induction false} KeptAppend(a: seq<ClassValue>, b: seq<ClassValue>)
    ensures Kept(a + b) == Kept(a) + Kept(b)
  {
    if a == [] {
      assert a + b == b;
    } else {
      assert (a + b)[1..] == a[1..] + b;
      KeptAppend(a[1..], b);
    }
  }

  /** Joining two lists is joining their joins, with one separator between when both are non-empty. */
  lemma {:induction false} JoinAppend(p: seq<string>, q: seq<string>, sep: string)
    ensures Join(p + q, sep) ==
      if p == [] then Join(q, sep)
      else if q == [] then Join(p, sep)
      else Join(p, sep) + sep + Join(q, sep)
  {
    if p == [] {
      assert p + q == q;
    } else if q == [] {
      assert p + q == p;
    } else if |p| == 1 {
      assert (p + q)[1..] == q;
    } else {
      assert (p + q)[1..] == p[1..] + q;
      JoinAppend(p[1..], q, sep);
    }
  }

  /** Joining non-empty strings gives the empty string only for the empty list. */
  lemma JoinEmptyIff(parts: seq<string>, sep: string)
    requires forall i :: 0 <= i < |parts| ==> parts[i] != []
    ensures Join(parts, sep) == [] <==> parts == []
  {
    if |parts| > 1 {
      assert |Join(parts, sep)| >= |parts[0]|;
    }
  }

  lemma {:induction false} JoinLength(parts: seq<string>, sep: string)
    ensures |Join(parts, sep)| == TotalLength(parts) + (if parts == [] then 0 else (|parts| - 1) * |sep|)
  {
    if |parts| > 1 {
      JoinLength(parts[1..], sep);
      assert TotalLength(parts[1..][1..]) == TotalLength(parts[2..]);
    } else if |parts| == 1 {
      assert TotalLength(parts[1..]) == 0;
    }
  }

  /** The result is empty exactly when every argument is falsy. */
  lemma CnEmptyIff(inputs: seq<ClassValue>)
    ensures Cn(inputs) == "" <==> forall i :: 0 <= i < |inputs| ==> !Truthy(inputs[i])
  {
    KeptEmptyIff(inputs);
    JoinEmptyIff(Kept(inputs), " ");
  }

  /** Nothing is kept exactly when every argument is falsy. */
  lemma {:induction false} KeptEmptyIff(inputs: seq<ClassValue>)
    ensures Kept(inputs) == [] <==> forall i :: 0 <= i < |inputs| ==> !Truthy(inputs[i])
  {
    if inputs != [] {
      KeptEmptyIff(inputs[1..]);
      if Kept(inputs) == [] {
        assert !Truthy(inputs[0]);
        forall i | 0 <= i < |inputs| ensures !Truthy(inputs[i]) {
          if i > 0 {
            assert inputs[i] == inputs[1..][i - 1];
          }
        }
      } else if !Truthy(inputs[0]) {
        var j :| 0 <= j < |inputs[1..]| && Truthy(inputs[1..][j]);
        assert inputs[j + 1] == inputs[1..][j];
      }
    }
  }

  /** A single non-empty class name comes back unchanged. */
  lemma CnSingle(s: string)
    requires s != []
    ensures Cn([Text(s)]) == s
  {
    assert [Text(s)][1..] == [];
  }

  /** A falsy value anywhere in the arguments changes nothing. */
  lemma CnDropsFalsy(a: seq<ClassValue>, v: ClassValue, b: seq<ClassValue>)
    requires !Truthy(v)
    ensures Cn(a + [v] + b) == Cn(a + b)
  {
    assert Kept([v][1..]) == Kept([]) == [];
    assert Kept([v]) == [];
    KeptAppend(a, [v]);
    assert Kept(a + [v]) == Kept(a);
    KeptAppend(a + [v], b);
    KeptAppend(a, b);
  }

  /** Every kept string is one of the arguments. */
  lemma {:induction false} KeptFromInputs(inputs: seq<ClassValue>)
    ensures forall i :: 0 <= i < |Kept(inputs)| ==> Text(Kept(inputs)[i]) in inputs
  {
    if inputs != [] {
      KeptFromInputs(inputs[1..]);
      forall i | 0 <= i < |Kept(inputs)| ensures Text(Kept(inputs)[i]) in inputs {
        var head := if Truthy(inputs[0]) then [inputs[0].s] else [];
        if i >= |head| {
          assert Kept(inputs)[i] == Kept(inputs[1..])[i - |head|];
          assert Text(Kept(inputs)[i]) in inputs[1..];
        }
      }
    }
  }

  /**
   * Splitting the arguments anywhere: the result is the two halves' results
   * joined by one space, or just one of them when the other is empty.
   */
  lemma CnAppend(a: seq<ClassValue>, b: seq<ClassValue>)
    ensures Cn(a + b) ==
      if Cn(a) == "" then Cn(b)
      else if Cn(b) == "" then Cn(a)
      else Cn(a) + " " + Cn(b)
  {
    KeptAppend(a, b);
    JoinAppend(Kept(a), Kept(b), " ");
    JoinEmptyIff(Kept(a), " ");
    JoinEmptyIff(Kept(b), " ");
  }
}
