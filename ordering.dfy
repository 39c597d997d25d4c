/** Three-way comparison, as Rust's `std::cmp::Ordering`, and the comparisons the
    process table ranks by: numeric comparison of integers (pid, memory), of the CPU
    value, and the lexicographic comparison of names. */
module Ordering {

  datatype Ordering = Less | Equal | Greater {

    /** `Ordering::reverse`: swaps `Less` and `Greater`, keeps `Equal`. */
    function Reverse(): (r: Ordering)
      ensures r.Equal? <==> Equal?
      ensures r.Less? <==> Greater?
    {
      match this
      case Less => Greater
      case Equal => Equal
      case Greater => Less
    }
  }

  /** `Ord::cmp` on unsigned integers. */
  function CmpInt(a: int, b: int): Ordering {
    if a < b then Less else if a == b then Equal else Greater
  }

  /** `partial_cmp` on the CPU value, for values that are comparable. */
  function CmpReal(a: real, b: real): Ordering {
    if a < b then Less else if a == b then Equal else Greater
  }

  /** `Ord::cmp` on `String`: lexicographic, character by character. Comparing the
      UTF-8 bytes, as Rust does, orders strings exactly as comparing their code points. */
  function CmpStr(a: string, b: string): Ordering {
    if a == [] then (if b == [] then Equal else Less)
    else if b == [] then Greater
    else if a[0] < b[0] then Less
    else if a[0] > b[0] then Greater
    else CmpStr(a[1..], b[1..])
  }

  /** Lexicographic order, stated independently of `CmpStr`: `a` is a prefix of `b`,
      or at the first position where they differ `a` has the smaller character. */
  ghost predicate LexLe(a: string, b: string) {
    (|a| <= |b| && a == b[..|a|])
    || exists k :: 0 <= k < |a| && k < |b| && a[..k] == b[..k] && a[k] < b[k]
  }

  lemma {:induction false} CmpStrReverse(a: string, b: string)
    ensures CmpStr(b, a) == CmpStr(a, b).Reverse()
  {
    if a != [] && b != [] && a[0] == b[0] {
      CmpStrReverse(a[1..], b[1..]);
    }
  }

  lemma {:induction false} CmpStrEqual(a: string, b: string)
    ensures CmpStr(a, b) == Equal <==> a == b
  {
    if a != [] && b != [] && a[0] == b[0] {
      CmpStrEqual(a[1..], b[1..]);
      assert a == [a[0]] + a[1..] && b == [b[0]] + b[1..];
    }
  }

  lemma {:induction false} CmpStrTransitive(a: string, b: string, c: string)
    requires CmpStr(a, b) != Greater && CmpStr(b, c) != Greater
    ensures CmpStr(a, c) != Greater
  {
    if a != [] && b != [] && c != [] && a[0] == b[0] == c[0] {
      CmpStrTransitive(a[1..], b[1..], c[1..]);
    }
  }

  /** Dropping a common first character keeps lexicographic order. */
  lemma LexLeTail(a: string, b: string)
    requires a != [] && b != [] && a[0] == b[0] && LexLe(a, b)
    ensures LexLe(a[1..], b[1..])
  {
    var a', b' := a[1..], b[1..];
    if |a| <= |b| && a == b[..|a|] {
      assert a' == b'[..|a'|];
    } else {
      var k :| 0 <= k < |a| && k < |b| && a[..k] == b[..k] && a[k] < b[k];
      assert k > 0;
      assert a'[..k - 1] == a[1..k] == b[1..k] == b'[..k - 1];
      assert a'[k - 1] < b'[k - 1];
    }
  }

  /** Putting back a common first character keeps lexicographic order. */
  lemma LexLeCons(a: string, b: string)
    requires a != [] && b != [] && a[0] == b[0] && LexLe(a[1..], b[1..])
    ensures LexLe(a, b)
  {
    var a', b' := a[1..], b[1..];
    if |a'| <= |b'| && a' == b'[..|a'|] {
      assert a == [a[0]] + a' && b[..|a|] == [b[0]] + b'[..|a'|];
    } else {
      var k :| 0 <= k < |a'| && k < |b'| && a'[..k] == b'[..k] && a'[k] < b'[k];
      assert a[..k + 1] == [a[0]] + a'[..k] && b[..k + 1] == [b[0]] + b'[..k];
      assert a[k + 1] < b[k + 1];
    }
  }

  /** `CmpStr` agrees with the independent definition of lexicographic order. */
  lemma {:induction false} CmpStrIsLex(a: string, b: string)
    ensures CmpStr(a, b) != Greater <==> LexLe(a, b)
  {
    if a == [] {
      assert a == b[..0];
    } else if b == [] {
    } else if a[0] < b[0] {
      assert a[..0] == b[..0];
    } else if a[0] > b[0] {
    } else {
      CmpStrIsLex(a[1..], b[1..]);
      if LexLe(a, b) {
        LexLeTail(a, b);
      }
      if LexLe(a[1..], b[1..]) {
        LexLeCons(a, b);
      }
    }
  }
}
