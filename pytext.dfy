/**
 * The Python `str` operations that binance.py uses, over `seq<char>`:
 * `find`, `split(c)[0]`, `split(c)[-1]` and `int(...)`, and the two-digit
 * fields in which `str()` of a `datetime.time` lays out its hours, minutes
 * and seconds.
 */
module PyText {
  import opened Wrappers

  /** `s.find(c)`: the index of the first `c`, or -1 when there is none. */
  function Find(s: string, c: char): (r: int)
    ensures -1 <= r < |s|
    ensures r == -1 <==> c !in s
    ensures r >= 0 ==> s[r] == c && c !in s[..r]
  {
    if s == [] then -1
    else if s[0] == c then 0
    else
      var r := Find(s[1..], c);
      assert s[1..][..if r < 0 then 0 else r] == s[1..if r < 0 then 1 else r + 1];
      if r == -1 then -1 else r + 1
  }

  /** `s.split(c)[-1]`: the text after the last `c`, or all of `s` when `c` does not occur. */
  function AfterLast(s: string, c: char): (r: string)
    ensures c !in r
    ensures |r| <= |s| && r == s[|s| - |r|..]
    ensures c in s ==> |r| < |s| && s[|s| - |r| - 1] == c
    ensures c !in s ==> r == s
  {
    if s == [] then []
    else if s[|s| - 1] == c then []
    else
      var r := AfterLast(s[..|s| - 1], c);
      assert s == s[..|s| - 1] + [s[|s| - 1]];
      r + [s[|s| - 1]]
  }

  /** `s.split(c)[0]`: the text before the first `c`, or all of `s` when `c` does not occur. */
  function BeforeFirst(s: string, c: char): (r: string)
    ensures c !in r
    ensures |r| <= |s| && r == s[..|r|]
    ensures |r| < |s| ==> s[|r|] == c
    ensures c !in s ==> r == s
  {
    if s == [] then []
    else if s[0] == c then []
    else [s[0]] + BeforeFirst(s[1..], c)
  }

  predicate IsDigit(ch: char) {
    '0' <= ch <= '9'
  }

  predicate AllDigits(s: string) {
    forall i :: 0 <= i < |s| ==> IsDigit(s[i])
  }

  /** The decimal value of a string of ASCII digits, most significant first. */
  function DigitsValue(s: string): nat
    requires AllDigits(s)
  {
    if s == [] then 0
    else DigitsValue(s[..|s| - 1]) * 10 + (s[|s| - 1] as int - '0' as int)
  }

  /**
   * `int(s)` on the strings this model feeds it: a non-empty run of ASCII
   * digits gives its value; anything else is the ValueError (None).
   */
  function ParseInt(s: string): Option<nat>
  {
    if s != [] && AllDigits(s) then Some(DigitsValue(s)) else None
  }

  function Pow10(k: nat): nat
  {
    if k == 0 then 1 else 10 * Pow10(k - 1)
  }

  /** `n` written in `width` decimal digits with leading zeros (only the low `width` digits survive). */
  function ZeroPadded(n: nat, width: nat): string
  {
    if width == 0 then [] else ZeroPadded(n / 10, width - 1) + [('0' as int + n % 10) as char]
  }

  /** A zero-padded field is `width` ASCII digits, and when `n` fits they spell `n`. */
  lemma {:induction false} ZeroPaddedDigits(n: nat, width: nat)
    ensures |ZeroPadded(n, width)| == width && AllDigits(ZeroPadded(n, width))
    ensures n < Pow10(width) ==> DigitsValue(ZeroPadded(n, width)) == n
  {
    if width > 0 {
      ZeroPaddedDigits(n / 10, width - 1);
      var s := ZeroPadded(n, width);
      assert s[..|s| - 1] == ZeroPadded(n / 10, width - 1);
    }
  }

  /** `int()` reads back every zero-padded field that fits its width: parsing inverts printing. */
  lemma {:induction false} ParseZeroPadded(n: nat, width: nat)
    requires 0 < width && n < Pow10(width)
    ensures ParseInt(ZeroPadded(n, width)) == Some(n)
  {
    ZeroPaddedDigits(n, width);
  }

  /** A two-digit zero-padded field of a time or offset as `str()` of a `datetime.time` writes it. */
  function Pad2(n: nat): (r: string)
    requires n < 100
  {
    [('0' as int + n / 10) as char, ('0' as int + n % 10) as char]
  }

  /** Reading back a two-digit field gives the number that was written. */
  lemma {:induction false} ParsePad2(n: nat)
    requires n < 100
    ensures |Pad2(n)| == 2 && AllDigits(Pad2(n))
    ensures ParseInt(Pad2(n)) == Some(n)
  {
    assert (n / 10) / 10 == 0 && (n / 10) % 10 == n / 10;
    assert ZeroPadded(n / 10, 1) == [('0' as int + n / 10) as char];
    assert Pad2(n) == ZeroPadded(n / 10, 1) + [('0' as int + n % 10) as char];
    ZeroPaddedDigits(n, 2);
    ParseZeroPadded(n, 2);
  }

  /** Splitting at a separator that does not occur after it returns the tail. */
  lemma {:induction false} AfterLastOfJoin(a: string, c: char, b: string)
    requires c !in b
    ensures AfterLast(a + [c] + b, c) == b
  {
    var s := a + [c] + b;
    if b != [] {
      var b' := b[..|b| - 1];
      assert s[..|s| - 1] == a + [c] + b';
      AfterLastOfJoin(a, c, b');
      assert b == b' + [b[|b| - 1]];
    }
  }

  /** Splitting at a separator that does not occur before it returns the head. */
  lemma {:induction false} BeforeFirstOfJoin(a: string, c: char, b: string)
    requires c !in a
    ensures BeforeFirst(a + [c] + b, c) == a
  {
    var s := a + [c] + b;
    if a != [] {
      assert s[1..] == a[1..] + [c] + b;
      BeforeFirstOfJoin(a[1..], c, b);
      assert a == [a[0]] + a[1..];
    }
  }
}
