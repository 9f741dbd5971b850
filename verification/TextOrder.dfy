/** Text in byte order, as the source's string comparison has it: for UTF-8, code point by code point. */
module TextOrder {
  import opened Orders
  import opened Utf16

  function Codes(s: string): (r: seq<nat>)
    ensures |r| == |s| && forall i :: 0 <= i < |s| ==> r[i] == s[i] as int
  {
    seq(|s|, i requires 0 <= i < |s| => s[i] as int)
  }

  predicate CodeLess(a: string, b: string) {
    Below(Codes(a), Codes(b))
  }

  /** A strict order in which any two different texts can be told apart. */
  ghost predicate Total(less: (string, string) -> bool) {
    Strict(less) && forall a, b {:trigger less(a, b)} :: a != b <==> less(a, b) || less(b, a)
  }

  lemma {:induction false} CodeOrderIsTotal()
    ensures Total(CodeLess)
  {
    forall a, b ensures (a != b <==> CodeLess(a, b) || CodeLess(b, a)) && !(CodeLess(a, b) && CodeLess(b, a)) {
      CodesTell(a, b);
      Trichotomy(Codes(a), Codes(b));
    }
    forall a, b, c | CodeLess(a, b) && CodeLess(b, c) ensures CodeLess(a, c) {
      BelowOn(Codes(a), Codes(b), Codes(c));
    }
  }

  lemma {:induction false} CodesTell(a: string, b: string)
    ensures Codes(a) == Codes(b) ==> a == b
  {
    if Codes(a) == Codes(b) {
      forall i | 0 <= i < |a| ensures a[i] == b[i] {
        assert Codes(a)[i] == Codes(b)[i];
      }
    }
  }
}
