/** The decimal text of a counter: written by `to_string`, read back by the strict parser. */
module Decimal {
  import opened Results

  const U64_MAX: nat := 0xFFFF_FFFF_FFFF_FFFF

  predicate IsDigit(c: char) {
    '0' <= c <= '9'
  }

  function Digit(d: nat): (c: char)
    requires d < 10
    ensures IsDigit(c) && c as int == '0' as int + d
  {
    ('0' as int + d) as char
  }

  function Render(n: nat): (s: string)
    ensures s != "" && forall i :: 0 <= i < |s| ==> IsDigit(s[i])
    ensures n > 0 ==> s[0] != '0'
    ensures n == 0 ==> s == "0"
  {
    if n < 10 then [Digit(n)] else Render(n / 10) + [Digit(n % 10)]
  }

  function Value(s: string): nat
    requires forall i :: 0 <= i < |s| ==> IsDigit(s[i])
  {
    if s == "" then 0
    else
      var last := s[|s| - 1];
      assert IsDigit(last);
      10 * Value(s[..|s| - 1]) + (last as int - '0' as int)
  }

  /** The counter parser: plain digits, no leading zero, at most twenty of them, in range. */
  function Parse(s: string): Option<nat> {
    if s == "" || |s| > 20 || (|s| > 1 && s[0] == '0') || exists i :: 0 <= i < |s| && !IsDigit(s[i]) then None
    else if Value(s) > U64_MAX then None
    else Some(Value(s))
  }

  lemma {:induction false} ValueOfRender(n: nat)
    ensures Value(Render(n)) == n
  {
    if n >= 10 {
      ValueOfRender(n / 10);
      assert Render(n)[..|Render(n)| - 1] == Render(n / 10);
    } else {
      assert Render(n)[..0] == "";
    }
  }

  lemma {:induction false} RenderOfValue(s: string)
    requires s != "" && forall i :: 0 <= i < |s| ==> IsDigit(s[i])
    requires |s| > 1 ==> s[0] != '0'
    ensures Render(Value(s)) == s
    ensures s[0] != '0' ==> Value(s) > 0
  {
    var front := s[..|s| - 1];
    assert s == front + [s[|s| - 1]];
    if front != "" {
      RenderOfValue(front);
    } else {
      assert Value(front) == 0;
    }
  }

  function Pow10(k: nat): nat {
    if k == 0 then 1 else 10 * Pow10(k - 1)
  }

  lemma {:induction false} RenderLength(n: nat, k: nat)
    requires k > 0 && n < Pow10(k)
    ensures |Render(n)| <= k
  {
    if n >= 10 {
      assert Pow10(1) == 10;
      assert n / 10 < Pow10(k - 1);
      RenderLength(n / 10, k - 1);
    }
  }

  /** Reading undoes writing, and only written texts are read: one text for each counter. */
  lemma CounterTextIsCanonical(n: nat, s: string)
    requires n <= U64_MAX
    ensures Parse(Render(n)) == Some(n)
    ensures Parse(s) == Some(n) <==> s == Render(n)
  {
    ValueOfRender(n);
    assert Pow10(5) == 100000;
    assert Pow10(10) == 100000 * Pow10(5);
    assert Pow10(15) == 100000 * Pow10(10);
    assert Pow10(20) == 100000 * Pow10(15);
    RenderLength(n, 20);
    if Parse(s) == Some(n) {
      RenderOfValue(s);
    }
  }

  lemma RenderIsInjective(m: nat, n: nat)
    requires Render(m) == Render(n)
    ensures m == n
  {
    ValueOfRender(m);
    ValueOfRender(n);
  }
}
