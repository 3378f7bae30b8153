/** Digit strings: what `parseInt(x, 10)`, `n.toString(16)`, `padStart(2, "0")`
    and `x.toFixed(2)` produce and read back. */
module Numerals {
  import opened Strings

  predicate IsHexDigit(c: char) {
    IsDigit(c) || ('a' <= c <= 'f') || ('A' <= c <= 'F')
  }

  function DigitVal(c: char): (v: nat)
    requires IsHexDigit(c)
    ensures v < 16
    ensures v < 10 <==> IsDigit(c)
    ensures v == 0 <==> c == '0'
  {
    if IsDigit(c) then c as int - '0' as int
    else if 'a' <= c <= 'f' then c as int - 'a' as int + 10
    else c as int - 'A' as int + 10
  }

  /** The lower-case digit JavaScript's `toString` writes for `d`. */
  function DigitChar(d: nat): (c: char)
    requires d < 16
    ensures IsHexDigit(c) && DigitVal(c) == d
    ensures !('A' <= c <= 'Z')
  {
    if d < 10 then ('0' as int + d) as char else ('a' as int + d - 10) as char
  }

  /** The two bases the source writes numbers in. */
  predicate Radix(base: nat) { base == 10 || base == 16 }

  predicate AllDigitsIn(ds: string, base: nat) {
    forall i :: 0 <= i < |ds| ==> IsHexDigit(ds[i]) && DigitVal(ds[i]) < base
  }

  /** The number a digit string denotes in `base` (most significant digit first). */
  function Value(ds: string, base: nat): nat
    requires AllDigitsIn(ds, base)
    decreases |ds|
  {
    if |ds| == 0 then 0
    else Value(ds[..|ds| - 1], base) * base + DigitVal(ds[|ds| - 1])
  }

  lemma DivMod(n: nat, base: nat)
    requires Radix(base) && base <= n
    ensures 1 <= n / base < n && n % base < base
    ensures n == n / base * base + n % base
  {
    if base == 10 {
    } else {
    }
  }

  lemma DivModOf(a: nat, d: nat, base: nat)
    requires Radix(base) && d < base
    ensures (a * base + d) / base == a && (a * base + d) % base == d
    ensures a >= 1 ==> a * base + d >= base
  {
    if base == 10 {
    } else {
    }
  }

  lemma ValueTwo(ds: string, base: nat)
    requires Radix(base) && |ds| == 2 && AllDigitsIn(ds, base)
    ensures Value(ds, base) == DigitVal(ds[0]) * base + DigitVal(ds[1])
  {
    var p := ds[..1];
    assert p[..0] == [];
    assert Value(p, base) == DigitVal(ds[0]);
    assert ds[..|ds| - 1] == p;
  }

  /** `n.toString(base)`: lower-case digits, no leading zeros. */
  function Render(n: nat, base: nat): (r: string)
    requires Radix(base)
    ensures |r| >= 1 && AllDigitsIn(r, base)
    ensures |r| > 1 ==> r[0] != '0'
    ensures forall i :: 0 <= i < |r| ==> !('A' <= r[i] <= 'Z')
    decreases n
  {
    if n < base then [DigitChar(n)]
    else
      DivMod(n, base);
      Render(n / base, base) + [DigitChar(n % base)]
  }

  lemma {:induction false} RenderValue(n: nat, base: nat)
    requires Radix(base)
    ensures Value(Render(n, base), base) == n
    decreases n
  {
    if n >= base {
      DivMod(n, base);
      var pre := Render(n / base, base);
      var r := Render(n, base);
      assert r[..|r| - 1] == pre;
      RenderValue(n / base, base);
    }
  }

  /** The strings `Render` produces: no leading zero, no upper-case digit. */
  predicate Canonical(ds: string, base: nat) {
    |ds| >= 1 && AllDigitsIn(ds, base) && (|ds| > 1 ==> ds[0] != '0')
    && forall i :: 0 <= i < |ds| ==> !('A' <= ds[i] <= 'Z')
  }

  lemma {:induction false} ValuePositive(ds: string, base: nat)
    requires Radix(base) && |ds| >= 1 && AllDigitsIn(ds, base) && ds[0] != '0'
    ensures Value(ds, base) >= 1
    decreases |ds|
  {
    if |ds| > 1 {
      ValuePositive(ds[..|ds| - 1], base);
    }
  }

  lemma DigitCharOfVal(c: char)
    requires IsHexDigit(c) && !('A' <= c <= 'Z')
    ensures DigitChar(DigitVal(c)) == c
  {
  }

  lemma RenderStep(a: nat, d: nat, base: nat)
    requires Radix(base) && a >= 1 && d < base
    ensures Render(a * base + d, base) == Render(a, base) + [DigitChar(d)]
  {
    DivModOf(a, d, base);
  }

  /** Reading a canonical digit string and writing it back gives the same string. */
  lemma {:induction false} ValueRender(ds: string, base: nat)
    requires Radix(base) && Canonical(ds, base)
    ensures Render(Value(ds, base), base) == ds
    decreases |ds|
  {
    if |ds| == 1 {
      ValueRenderDigit(ds, base);
    } else {
      var pre := ds[..|ds| - 1];
      assert ds == pre + [ds[|ds| - 1]];
      assert Canonical(pre, base);
      ValueRender(pre, base);
      ValueRenderSnoc(pre, ds[|ds| - 1], base);
    }
  }

  /** Appending a digit to a string that reads back as itself keeps that property. */
  lemma ValueRenderSnoc(pre: string, c: char, base: nat)
    requires Radix(base) && Canonical(pre, base) && pre[0] != '0'
    requires IsHexDigit(c) && DigitVal(c) < base && !('A' <= c <= 'Z')
    requires Render(Value(pre, base), base) == pre
    ensures AllDigitsIn(pre + [c], base)
    ensures Render(Value(pre + [c], base), base) == pre + [c]
  {
    var ds := pre + [c];
    assert ds[..|ds| - 1] == pre;
    var v := Value(pre, base);
    var d := DigitVal(c);
    assert Value(ds, base) == v * base + d;
    ValuePositive(pre, base);
    RenderStep(v, d, base);
    DigitCharOfVal(c);
    assert Render(Value(ds, base), base) == Render(v, base) + [DigitChar(d)];
    assert Render(Value(ds, base), base) == ds;
  }

  lemma ValueRenderDigit(ds: string, base: nat)
    requires Radix(base) && Canonical(ds, base) && |ds| == 1
    ensures Render(Value(ds, base), base) == ds
  {
    var c := ds[0];
    assert ds[..0] == [];
    assert Value(ds, base) == DigitVal(c);
    DigitCharOfVal(c);
  }

  /** A leading zero does not change the value. */
  lemma {:induction false} ValueLeadingZero(ds: string, base: nat)
    requires Radix(base) && AllDigitsIn(ds, base)
    ensures AllDigitsIn("0" + ds, base)
    ensures Value("0" + ds, base) == Value(ds, base)
    decreases |ds|
  {
    if |ds| > 0 {
      var z := "0" + ds;
      assert z[..|z| - 1] == "0" + ds[..|ds| - 1];
      ValueLeadingZero(ds[..|ds| - 1], base);
    } else {
      assert ("0" + ds)[..0] == [];
    }
  }

  /** `s.padStart(2, "0")`. */
  function PadStart2(s: string): (r: string)
    ensures |r| == if |s| >= 2 then |s| else 2
    ensures r[|r| - |s|..] == s
    ensures forall i :: 0 <= i < |r| - |s| ==> r[i] == '0'
  {
    if |s| >= 2 then s else if |s| == 1 then "0" + s else "00"
  }

  lemma PadStart2Value(ds: string, base: nat)
    requires Radix(base) && AllDigitsIn(ds, base)
    ensures AllDigitsIn(PadStart2(ds), base)
    ensures Value(PadStart2(ds), base) == Value(ds, base)
  {
    if |ds| == 1 {
      ValueLeadingZero(ds, base);
    } else if |ds| == 0 {
      ValueLeadingZero(ds, base);
      ValueLeadingZero("0", base);
    }
  }

  /** A byte written in hexadecimal and padded takes exactly two digits. */
  lemma ByteHexWidth(n: nat)
    requires n < 256
    ensures |PadStart2(Render(n, 16))| == 2
  {
    if n >= 16 {
      assert Render(n, 16) == Render(n / 16, 16) + [DigitChar(n % 16)];
    }
  }

  /** A number padded to two hexadecimal digits takes exactly two only when it is below 256. */
  lemma ByteHexWidthIff(n: nat)
    ensures |PadStart2(Render(n, 16))| == 2 <==> n < 256
  {
    if n < 256 {
      ByteHexWidth(n);
    } else {
      DivMod(n, 16);
      RenderStep(n / 16, n % 16, 16);
      DivMod(n / 16, 16);
      RenderStep(n / 16 / 16, n / 16 % 16, 16);
    }
  }

  /** Two decimal digits, the leading one possibly zero. */
  function TwoDigits(n: nat): (r: string)
    requires n < 100
    ensures |r| == 2 && AllDigitsIn(r, 10)
  {
    [DigitChar(n / 10), DigitChar(n % 10)]
  }

  lemma TwoDigitsValue(n: nat)
    requires n < 100
    ensures Value(TwoDigits(n), 10) == n
  {
    ValueTwo(TwoDigits(n), 10);
  }

  /** `(h / 100).toFixed(2)` for a number that is a whole count `h` of hundredths. */
  function Fixed2(h: nat): (r: string)
    ensures |r| >= 4 && r[|r| - 3] == '.'
    ensures Canonical(r[..|r| - 3], 10) && AllDigitsIn(r[|r| - 2..], 10)
  {
    var ip := Render(h / 100, 10);
    var r := ip + "." + TwoDigits(h % 100);
    assert r[..|r| - 3] == ip && r[|r| - 2..] == TwoDigits(h % 100);
    r
  }

  /** The decimal text of `Fixed2(h)` denotes `h / 100`: its integer part is
      `h / 100` and its two fraction digits are `h % 100`. */
  lemma Fixed2Value(h: nat)
    ensures var r := Fixed2(h);
      Value(r[..|r| - 3], 10) == h / 100 && Value(r[|r| - 2..], 10) == h % 100
  {
    var r := Fixed2(h);
    var ip, fp := Render(h / 100, 10), TwoDigits(h % 100);
    assert r == ip + "." + fp;
    assert r[..|r| - 3] == ip && r[|r| - 2..] == fp;
    RenderValue(h / 100, 10);
    TwoDigitsValue(h % 100);
  }
}
