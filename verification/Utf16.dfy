/** Text ordered by UTF-16 code units (RFC 8785 section 3.2.3; utf16Less of internal/pageadmission/pageadmission.go). */
module Utf16 {
  import opened Orders

  function Units(c: char): seq<nat> {
    var n := c as int;
    if n < 0x10000 then [n] else [0xD800 + (n - 0x10000) / 0x400, 0xDC00 + (n - 0x10000) % 0x400]
  }

  function Encode(s: string): seq<nat> {
    if s == [] then [] else Units(s[0]) + Encode(s[1..])
  }

  /** Lexicographic, a proper prefix first. */
  predicate Below(a: seq<nat>, b: seq<nat>) {
    b != [] && (a == [] || a[0] < b[0] || (a[0] == b[0] && Below(a[1..], b[1..])))
  }

  predicate Less(a: string, b: string) {
    Below(Encode(a), Encode(b))
  }

  method Utf16Less(a: string, b: string) returns (less: bool)
    ensures less == Less(a, b)
  {
    var left, right := Encode(a), Encode(b);
    var i := 0;
    while i < |left| && i < |right|
      invariant i <= |left| && i <= |right| && Less(a, b) == Below(left[i..], right[i..])
    {
      if left[i] != right[i] {
        return left[i] < right[i];
      }
      i := i + 1;
    }
    return |left| < |right|;
  }

  lemma {:induction false} EncodeInjective(a: string, b: string)
    requires Encode(a) == Encode(b)
    ensures a == b
  {
    if a != [] && b != [] {
      HeadIs(a);
      HeadIs(b);
      var m, n := a[0] as int - 0x10000, b[0] as int - 0x10000;
      assert m >= 0 ==> m == (m / 0x400) * 0x400 + m % 0x400;
      assert n >= 0 ==> n == (n / 0x400) * 0x400 + n % 0x400;
      assert a[0] == b[0];
      assert Encode(a[1..]) == Encode(a)[|Units(a[0])|..] == Encode(b[1..]);
      EncodeInjective(a[1..], b[1..]);
      assert a == [a[0]] + a[1..] && b == [b[0]] + b[1..];
    }
  }

  /** The first code unit tells a surrogate pair from a single unit. */
  lemma {:induction false} HeadIs(s: string)
    requires s != []
    ensures var u, all := Units(s[0]), Encode(s);
      && |u| <= |all| && all[0] == u[0] && (|u| == 2 ==> all[1] == u[1]) && all[|u|..] == Encode(s[1..])
      && (|u| == 2 <==> 0xD800 <= all[0] < 0xDC00)
  {
  }

  lemma {:induction false} Trichotomy(a: seq<nat>, b: seq<nat>)
    ensures a == b || Below(a, b) || Below(b, a)
    ensures !(a == b && Below(a, b)) && !(Below(a, b) && Below(b, a))
  {
    if a != [] && b != [] {
      Trichotomy(a[1..], b[1..]);
      assert a == [a[0]] + a[1..] && b == [b[0]] + b[1..];
    }
  }

  lemma {:induction false} BelowOn(a: seq<nat>, b: seq<nat>, c: seq<nat>)
    requires Below(a, b) && Below(b, c)
    ensures Below(a, c)
  {
    if a != [] && a[0] == b[0] == c[0] {
      BelowOn(a[1..], b[1..], c[1..]);
    }
  }

  /** Any two different keys are in one order and no other. */
  lemma {:induction false} LessIsStrict(a: string, b: string)
    ensures a != b <==> Less(a, b) || Less(b, a)
    ensures !(Less(a, b) && Less(b, a))
  {
    Trichotomy(Encode(a), Encode(b));
    if Encode(a) == Encode(b) {
      EncodeInjective(a, b);
    }
  }

  lemma {:induction false} LessOn(a: string, b: string, c: string)
    requires Less(a, b) && Less(b, c)
    ensures Less(a, c)
  {
    BelowOn(Encode(a), Encode(b), Encode(c));
  }

  lemma {:induction false} LessIsOrder()
    ensures Strict(Less)
  {
    forall a, b | Less(a, b) ensures !Less(b, a) {
      LessIsStrict(a, b);
    }
    forall a, b, c | Less(a, b) && Less(b, c) ensures Less(a, c) {
      LessOn(a, b, c);
    }
  }

  /** What sorting distinct keys gives, however it is done. */
  function SortKeys(keys: seq<string>): seq<string> {
    SortBy(keys, Less)
  }

  lemma {:induction false} SortKeysSorts(keys: seq<string>)
    requires forall i, j :: 0 <= i < j < |keys| ==> keys[i] != keys[j]
    ensures InOrder(SortKeys(keys), Less) && forall k :: k in SortKeys(keys) <==> k in keys
  {
    LessIsOrder();
    forall i, j | 0 <= i < j < |keys| ensures Less(keys[i], keys[j]) || Less(keys[j], keys[i]) {
      LessIsStrict(keys[i], keys[j]);
    }
    SortInOrder(keys, Less);
  }
}
