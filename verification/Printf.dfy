/** ee_number of printf.c: a number in any base from 2 to 36, with sign, prefix, precision and padding. */
module Printf {
  import opened Basics
  import opened WideArithmetic

  const LOWER := "0123456789abcdefghijklmnopqrstuvwxyz"
  const UPPER := "0123456789ABCDEFGHIJKLMNOPQRSTUVWXYZ"
  const BUFFER := 66

  /** The bits of type: ZEROPAD, SIGN, PLUS, SPACE, LEFT, HEX_PREP, UPPERCASE. */
  datatype Style = Style(zeroPad: bool, signed: bool, plus: bool, space: bool, left: bool, prefix: bool, upper: bool)

  /** How many values a long has: 2^32 on i386 and 2^64 on x86_64. Numbers are given as unsigned. */
  predicate IsLong(range: nat) {
    range == 0x1_0000_0000 || range == 0x1_0000_0000_0000_0000
  }

  // ---------- what is printed ----------

  function Copies(c: char, n: int): (s: string)
    ensures |s| == (if n > 0 then n else 0) && forall i :: 0 <= i < |s| ==> s[i] == c
  {
    seq(if n > 0 then n else 0, _ => c)
  }

  predicate Negative(num: nat, range: nat, st: Style) {
    st.signed && num >= range / 2
  }

  /** The number without its sign; the most negative long has a magnitude too. */
  function Magnitude(num: nat, range: nat, st: Style): nat
    requires num < range
  {
    if Negative(num, range, st) then range - num else num
  }

  function SignOf(num: nat, range: nat, st: Style): string {
    if !st.signed then ""
    else if num >= range / 2 then "-"
    else if st.plus then "+"
    else if st.space then " "
    else ""
  }

  /** The x of the prefix is a small one in either case. */
  function PrefixOf(base: nat, st: Style): string {
    if st.prefix && base == 16 then "0x" else if st.prefix && base == 8 then "0" else ""
  }

  function Digit(d: nat, upper: bool): char
    requires d < 36
  {
    if upper then UPPER[d] else LOWER[d]
  }

  lemma Quotient(n: nat, base: nat)
    requires base >= 2
    ensures 0 <= n / base <= n / 2
    ensures n >= base ==> 1 <= n / base < n
  {
    assert n == base * (n / base) + n % base;
    if n / base >= 0 {
      Mul(n / base, 2, base);
    } else {
      Mul(base, 1, 0 - n / base);
    }
  }

  /** The digits of a number, the last one first; zero has one. */
  function Digits(n: nat, base: nat): (ds: seq<nat>)
    requires 2 <= base <= 36
    ensures |ds| >= 1 && forall i :: 0 <= i < |ds| ==> ds[i] < base
    decreases n
  {
    Quotient(n, base);
    if n < base then [n] else [n % base] + Digits(n / base, base)
  }

  /** The digits in writing order. */
  function Written(ds: seq<nat>, upper: bool): (s: string)
    requires forall i :: 0 <= i < |ds| ==> ds[i] < 36
    ensures |s| == |ds|
  {
    seq(|ds|, i requires 0 <= i < |ds| => Digit(ds[|ds| - 1 - i], upper))
  }

  /** The digits with the zeros the precision asks for. */
  function Numeral(n: nat, base: nat, precision: int, upper: bool): string
    requires 2 <= base <= 36
  {
    Copies('0', precision - |Digits(n, base)|) + Written(Digits(n, base), upper)
  }

  /** The padding goes to the right, between prefix and digits, or to the left. */
  function Text(num: nat, range: nat, base: nat, size: int, precision: int, st: Style): string
    requires num < range && 2 <= base <= 36
  {
    var sign := SignOf(num, range, st);
    var prefix := PrefixOf(base, st);
    var numeral := Numeral(Magnitude(num, range, st), base, precision, st.upper);
    var pad := size - |sign| - |prefix| - |numeral|;
    if st.left then sign + prefix + numeral + Copies(' ', pad)
    else if st.zeroPad then sign + prefix + Copies('0', pad) + numeral
    else Copies(' ', pad) + sign + prefix + numeral
  }

  // ---------- the code ----------

  lemma Pow64()
    ensures Pow2(64) == 0x1_0000_0000_0000_0000
  {
    Pow2s();
    assert Pow2(40) == 0x100_0000_0000;
    assert Pow2(48) == 0x1_0000_0000_0000;
    assert Pow2(56) == 0x100_0000_0000_0000;
  }

  /** In any base a number below 2^k has at most k digits. */
  lemma {:induction false} DigitsFit(n: nat, base: nat, k: nat)
    requires 2 <= base <= 36 && n < Pow2(k) && k >= 1
    ensures |Digits(n, base)| <= k
    decreases k
  {
    Quotient(n, base);
    if n >= base {
      assert Pow2(0) == 1 && Pow2(1) == 2;
      DigitsFit(n / base, base, k - 1);
    }
  }

  lemma DigitsStep(n: nat, base: nat)
    requires 2 <= base <= 36
    ensures Digits(n, base)[0] == n % base
    ensures n < base ==> |Digits(n, base)| == 1
    ensures n < base ==> n / base == 0
    ensures n >= base ==> n / base >= 1 && Digits(n, base)[1..] == Digits(n / base, base)
  {
    Quotient(n, base);
    if n < base {
      DivIs(n, base, n, 0);
    } else {
      assert Digits(n, base) == [n % base] + Digits(n / base, base);
    }
  }

  /** The digits in the buffer so far, in front of those of what is left of the number. */
  method FillDigits(num: nat, base: nat, upper: bool, tmp: array<char>) returns (i: nat)
    requires 2 <= base <= 36 && num < 0x1_0000_0000_0000_0000 && tmp.Length == BUFFER
    modifies tmp
    ensures i == |Digits(num, base)| <= 64
    ensures forall k :: 0 <= k < i ==> tmp[k] == Digit(Digits(num, base)[k], upper)
  {
    ghost var ds := Digits(num, base);
    Pow64();
    DigitsFit(num, base, 64);
    i := 0;
    if num == 0 {
      tmp[0] := '0';
      i := 1;
    } else {
      hide *;
      SmallDigits(num, base);
      var n: nat := num;
      while n != 0
        invariant i <= |ds| <= tmp.Length && (n == 0 <==> i == |ds|)
        invariant n != 0 ==> Digits(n, base) == ds[i..]
        invariant forall k :: 0 <= k < i ==> tmp[k] == Digit(ds[k], upper)
        decreases n
      {
        Quotient(n, base);
        DigitsStep(n, base);
        assert ds[i] == Digits(n, base)[0];
        assert ds[i + 1..] == Digits(n, base)[1..];
        tmp[i] := Digit(n % base, upper);
        n := n / base;
        i := i + 1;
      }
    }
  }

  /** while (size-- > 0) *str++ = c; */
  method Repeat(str: string, c: char, size: int) returns (out: string, left: int)
    ensures out == str + Copies(c, size) && left == (if size > 0 then -1 else size - 1)
  {
    out, left := str, size;
    ghost var n := 0;
    assert str + Copies(c, 0) == str;
    while left > 0
      invariant out == str + Copies(c, n) && (if size > 0 then 0 <= left == size - n else left == size && n == 0)
    {
      assert Copies(c, n) + [c] == Copies(c, n + 1);
      assert str + Copies(c, n) + [c] == str + (Copies(c, n) + [c]);
      out := out + [c];
      n := n + 1;
      left := left - 1;
    }
    left := left - 1;
    assert Copies(c, n) == Copies(c, size);
  }

  /** The text as the code puts it together: three paddings, of which at most one is not empty. */
  lemma TextIs(num: nat, range: nat, base: nat, size: int, precision: int, st: Style, a: string, b: string, e: string)
    requires num < range && 2 <= base <= 36
    requires var numeral := Numeral(Magnitude(num, range, st), base, precision, st.upper);
      var pad := size - |SignOf(num, range, st)| - |PrefixOf(base, st)| - |numeral|;
      && a == Copies(' ', if st.left || st.zeroPad then 0 else pad)
      && b == Copies('0', if st.zeroPad && !st.left then pad else 0) && e == Copies(' ', if st.left then pad else 0)
    ensures Text(num, range, base, size, precision, st)
      == a + SignOf(num, range, st) + PrefixOf(base, st) + b + Numeral(Magnitude(num, range, st), base, precision, st.upper) + e
  {
    hide Numeral, SignOf, PrefixOf, Magnitude;
  }

  lemma Regrouped(str: string, a: string, sign: string, prefix: string, b: string, z: string, w: string, e: string)
    ensures str + a + sign + prefix + b + z + w + e == str + (a + sign + prefix + b + (z + w) + e)
  {
  }

  lemma NoCopies(str: string, c: char, n: int)
    requires n <= 0
    ensures str + Copies(c, n) == str
  {
  }

  /** The first part of ee_number: the sign, the magnitude, and the room that is left. */
  method Split(num: nat, range: nat, base: int, size: int, st: Style) returns (mag: nat, sign: string, room: int)
    requires IsLong(range) && num < range && 2 <= base <= 36
    ensures mag == Magnitude(num, range, st) && sign == SignOf(num, range, st)
    ensures room == size - |sign| - |PrefixOf(base, st)| && mag < 0x1_0000_0000_0000_0000
  {
    mag, sign, room := num, "", size;
    if st.signed {
      if num >= range / 2 {
        sign := "-";
        mag := range - num;
        room := room - 1;
      } else if st.plus {
        sign := "+";
        room := room - 1;
      } else if st.space {
        sign := " ";
        room := room - 1;
      }
    }
    if st.prefix {
      if base == 16 {
        room := room - 2;
      } else if base == 8 {
        room := room - 1;
      }
    }
  }

  /** What comes before the digits; size is the padding needed. */
  method Lead(str: string, sign: string, base: int, size: int, st: Style) returns (out: string, left: int)
    requires 2 <= base <= 36
    ensures out == str + Copies(' ', if st.left || st.zeroPad then 0 else size) + sign + PrefixOf(base, st)
      + Copies('0', if st.zeroPad && !st.left then size else 0)
    ensures Copies(' ', left) == Copies(' ', if st.left then size else 0)
  {
    out, left := str, size;
    var zeroPad := st.zeroPad && !st.left;
    if !zeroPad && !st.left {
      out, left := Repeat(out, ' ', left);
    } else {
      NoCopies(out, ' ', 0);
    }
    out := out + sign;
    if st.prefix {
      if base == 8 {
        out := out + "0";
      } else if base == 16 {
        out := out + "0" + [LOWER[33]];
      }
    }
    assert out == str + Copies(' ', if st.left || st.zeroPad then 0 else size) + sign + PrefixOf(base, st);
    ghost var before := left;
    if !st.left {
      out, left := Repeat(out, if zeroPad then '0' else ' ', left);
    }
    if !zeroPad {
      NoCopies(out, '0', 0);
      assert before <= 0 || st.left;
    }
  }

  /** ee_number; str is what has been written so far. No answer for a base it cannot print. */
  method Number(str: string, num: nat, range: nat, base: int, size: int, precision: int, st: Style)
    returns (r: Option<string>)
    requires IsLong(range) && num < range
    ensures r == if base < 2 || base > 36 then None else Some(str + Text(num, range, base, size, precision, st))
  {
    if base < 2 || base > 36 {
      return None;
    }
    hide *;
    var mag, sign, room := Split(num, range, base, size, st);
    var tmp := new char[BUFFER];
    var i := FillDigits(mag, base, st.upper, tmp);
    var precise := if i > precision then i else precision;
    room := room - precise;
    var out, left := Lead(str, sign, base, room, st);
    var rest;
    out, rest := Repeat(out, '0', precise - i);
    SmallDigits(mag, base);
    out := Reverse(out, tmp, i, Digits(mag, base), st.upper);
    out, rest := Repeat(out, ' ', left);
    NumeralIs(mag, base, precision, st.upper);
    SameCopies(precise - i, precision - i);
    Assembled(str, num, range, base, size, precision, st, room);
    r := Some(out);
  }

  lemma SmallDigits(n: nat, base: nat)
    requires 2 <= base <= 36
    ensures forall k :: 0 <= k < |Digits(n, base)| ==> Digits(n, base)[k] < 36
  {
  }

  lemma SameCopies(m: int, n: int)
    requires m == n || (m == 0 && n < 0)
    ensures Copies('0', m) == Copies('0', n)
  {
  }

  lemma NumeralIs(n: nat, base: nat, precision: int, upper: bool)
    requires 2 <= base <= 36
    ensures forall k :: 0 <= k < |Digits(n, base)| ==> Digits(n, base)[k] < 36
    ensures Numeral(n, base, precision, upper) == Copies('0', precision - |Digits(n, base)|) + Written(Digits(n, base), upper)
    ensures |Numeral(n, base, precision, upper)| == if |Digits(n, base)| > precision then |Digits(n, base)| else precision
  {
  }

  /** What the code has written, piece by piece, is the text. */
  lemma Assembled(str: string, num: nat, range: nat, base: nat, size: int, precision: int, st: Style, room: int)
    requires num < range && 2 <= base <= 36
    requires room == size - |SignOf(num, range, st)| - |PrefixOf(base, st)|
      - |Numeral(Magnitude(num, range, st), base, precision, st.upper)|
    ensures var ds := Digits(Magnitude(num, range, st), base);
      && (forall k :: 0 <= k < |ds| ==> ds[k] < 36)
      && str + Text(num, range, base, size, precision, st)
        == str + Copies(' ', if st.left || st.zeroPad then 0 else room) + SignOf(num, range, st) + PrefixOf(base, st)
          + Copies('0', if st.zeroPad && !st.left then room else 0) + Copies('0', precision - |ds|) + Written(ds, st.upper)
          + Copies(' ', if st.left then room else 0)
  {
    hide *;
    var n := Magnitude(num, range, st);
    NumeralIs(n, base, precision, st.upper);
    var a := Copies(' ', if st.left || st.zeroPad then 0 else room);
    var b := Copies('0', if st.zeroPad && !st.left then room else 0);
    var e := Copies(' ', if st.left then room else 0);
    Regrouped(str, a, SignOf(num, range, st), PrefixOf(base, st), b, Copies('0', precision - |Digits(n, base)|), Written(Digits(n, base), st.upper), e);
    TextIs(num, range, base, size, precision, st, a, b, e);
  }

  /** while (i-- > 0) *str++ = tmp[i]; */
  method Reverse(str: string, tmp: array<char>, i: nat, ghost ds: seq<nat>, ghost upper: bool) returns (out: string)
    requires i == |ds| <= tmp.Length
    requires forall k :: 0 <= k < i ==> ds[k] < 36 && tmp[k] == Digit(ds[k], upper)
    ensures out == str + Written(ds, upper)
  {
    out := str;
    var k := i;
    while k > 0
      invariant 0 <= k <= i && out == str + Written(ds, upper)[..i - k]
    {
      k := k - 1;
      out := out + [tmp[k]];
    }
  }

  // ---------- reading it back ----------

  /** The value of a digit in either case; 36 for anything else. */
  function DigitValue(c: char): (d: nat)
    ensures d <= 36
  {
    if '0' <= c <= '9' then (c - '0') as nat
    else if 'a' <= c <= 'z' then (c - 'a') as nat + 10
    else if 'A' <= c <= 'Z' then (c - 'A') as nat + 10
    else 36
  }

  lemma LowerReads(d: nat)
    requires d < 36
    ensures DigitValue(LOWER[d]) == d
  {
  }

  lemma UpperReads(d: nat)
    requires d < 36
    ensures DigitValue(UPPER[d]) == d
  {
  }

  lemma DigitReads(d: nat, upper: bool)
    requires d < 36
    ensures DigitValue(Digit(d, upper)) == d
  {
    LowerReads(d);
    UpperReads(d);
    hide DigitValue;
  }

  /** A numeral in a base, most significant digit first. */
  function Read(s: string, base: nat): nat {
    if s == [] then 0 else Read(s[..|s| - 1], base) * base + DigitValue(s[|s| - 1])
  }

  /** The digits at the front. */
  function Run(s: string, base: nat): (r: string)
    ensures r <= s
  {
    if s == [] || DigitValue(s[0]) >= base then [] else [s[0]] + Run(s[1..], base)
  }

  function Unspaced(s: string): string {
    if s != [] && s[0] == ' ' then Unspaced(s[1..]) else s
  }

  /** A reader of numbers: spaces, a sign, a prefix of known length, and digits to the first other character. */
  function Scan(s: string, base: nat, prefix: nat): int {
    var u := Unspaced(s);
    var minus := u != [] && u[0] == '-';
    var v := if minus || (u != [] && u[0] == '+') then u[1..] else u;
    var n := Read(Run(if prefix <= |v| then v[prefix..] else v, base), base);
    if minus then 0 - n else n
  }

  ghost predicate AllDigits(s: string, base: nat) {
    forall i :: 0 <= i < |s| ==> DigitValue(s[i]) < base
  }

  lemma {:induction false} ReadZeros(n: int, s: string, base: nat)
    ensures Read(Copies('0', n) + s, base) == Read(s, base)
    decreases |s|, n
  {
    if s != [] {
      var all := Copies('0', n) + s;
      assert all[..|all| - 1] == Copies('0', n) + s[..|s| - 1];
      ReadZeros(n, s[..|s| - 1], base);
    } else if n > 0 {
      assert Copies('0', n)[..n - 1] == Copies('0', n - 1);
      assert Copies('0', n) + s == Copies('0', n) && Copies('0', n - 1) + s == Copies('0', n - 1);
      ReadZeros(n - 1, s, base);
    } else {
      assert Copies('0', n) + s == s;
    }
  }

  lemma DivRest(n: nat, base: nat)
    requires base > 0
    ensures n / base * base + n % base == n
  {
    assert n == base * (n / base) + n % base;
  }

  /** The digits of a number read as that number. */
  lemma {:induction false} DigitsRead(n: nat, base: nat, upper: bool)
    requires 2 <= base <= 36
    ensures Read(Written(Digits(n, base), upper), base) == n
    decreases n
  {
    var s := Written(Digits(n, base), upper);
    Quotient(n, base);
    if n < base {
      DigitReads(n, upper);
      assert s[..0] == [];
    } else {
      assert s[..|s| - 1] == Written(Digits(n / base, base), upper);
      DigitReads(n % base, upper);
      DigitsRead(n / base, base, upper);
      DivRest(n, base);
    }
  }

  lemma ZerosAreDigits(n: int, s: string, base: nat)
    requires 2 <= base && AllDigits(s, base)
    ensures AllDigits(Copies('0', n) + s, base)
  {
  }

  lemma WrittenDigits(ds: seq<nat>, upper: bool, base: nat)
    requires base <= 36 && forall i :: 0 <= i < |ds| ==> ds[i] < base
    ensures AllDigits(Written(ds, upper), base)
  {
    hide Digit, DigitValue;
    var w := Written(ds, upper);
    forall i | 0 <= i < |w|
      ensures DigitValue(w[i]) < base
    {
      DigitReads(ds[|w| - 1 - i], upper);
    }
  }

  lemma NumeralReads(n: nat, base: nat, precision: int, upper: bool)
    requires 2 <= base <= 36
    ensures var s := Numeral(n, base, precision, upper); Read(s, base) == n && AllDigits(s, base) && s != []
  {
    DigitsRead(n, base, upper);
    var w := Written(Digits(n, base), upper);
    WrittenDigits(Digits(n, base), upper, base);
    hide Digits, Written, Read, AllDigits;
    ReadZeros(precision - |Digits(n, base)|, w, base);
    ZerosAreDigits(precision - |Digits(n, base)|, w, base);
  }

  lemma {:induction false} SpacesSkipped(n: int, s: string)
    ensures Unspaced(Copies(' ', n) + s) == Unspaced(s)
    decreases n
  {
    if n > 0 {
      assert (Copies(' ', n) + s)[1..] == Copies(' ', n - 1) + s;
      SpacesSkipped(n - 1, s);
    } else {
      assert Copies(' ', n) + s == s;
    }
  }

  lemma {:induction false} RunEnds(s: string, n: int, base: nat)
    requires base <= 36 && AllDigits(s, base)
    ensures Run(s + Copies(' ', n), base) == s
    decreases |s|
  {
    var all := s + Copies(' ', n);
    if s != [] {
      assert all[1..] == s[1..] + Copies(' ', n);
      RunEnds(s[1..], n, base);
    }
  }

  lemma ScanSpaces(a: int, s: string, base: nat, prefix: nat)
    ensures Scan(Copies(' ', a) + s, base, prefix) == Scan(s, base, prefix)
  {
    SpacesSkipped(a, s);
    hide Run, Read, Unspaced;
  }

  predicate Plain(s: string) {
    s != [] && s[0] != ' ' && s[0] != '-' && s[0] != '+'
  }

  lemma ScanSigned(sign: string, rest: string, base: nat, prefix: nat)
    requires (sign == "" || sign == "-" || sign == "+" || sign == " ") && Plain(rest) && prefix <= |rest|
    ensures Scan(sign + rest, base, prefix) == var n := Read(Run(rest[prefix..], base), base); if sign == "-" then 0 - n else n
  {
    hide Run, Read;
    assert Unspaced(rest) == rest;
    if sign == "" {
      assert sign + rest == rest;
    } else {
      assert (sign + rest)[1..] == rest;
      assert (sign + rest)[0] == sign[0];
    }
  }

  lemma PlainDigits(prefix: string, digits: string, tail: string, base: nat)
    requires 2 <= base <= 36 && AllDigits(digits, base) && digits != []
    requires prefix == "" || prefix == "0" || prefix == "0x"
    ensures Plain(prefix + digits + tail) && (prefix + digits + tail)[|prefix|..] == digits + tail
  {
    assert DigitValue(digits[0]) < base;
  }

  lemma Joined(a: string, sign: string, prefix: string, digits: string, e: string)
    ensures a + sign + prefix + digits + e == a + (sign + (prefix + digits + e))
  {
  }

  lemma Filled(a: string, sign: string, prefix: string, b: string, numeral: string, e: string)
    ensures a + sign + prefix + b + numeral + e == a + sign + prefix + (b + numeral) + e
  {
  }

  /** Padding, a sign, a prefix and digits, read. */
  lemma Scanned(a: int, sign: string, prefix: string, digits: string, e: int, base: nat)
    requires 2 <= base <= 36 && AllDigits(digits, base) && digits != []
    requires sign == "" || sign == "-" || sign == "+" || sign == " "
    requires prefix == "" || prefix == "0" || prefix == "0x"
    ensures Scan(Copies(' ', a) + sign + prefix + digits + Copies(' ', e), base, |prefix|)
      == if sign == "-" then 0 - Read(digits, base) else Read(digits, base)
  {
    var rest := prefix + digits + Copies(' ', e);
    PlainDigits(prefix, digits, Copies(' ', e), base);
    RunEnds(digits, e, base);
    hide *;
    ScanSpaces(a, sign + rest, base, |prefix|);
    ScanSigned(sign, rest, base, |prefix|);
    Joined(Copies(' ', a), sign, prefix, digits, Copies(' ', e));
  }

  /** The text is some padding, the sign, the prefix, digits that read as the magnitude, and some padding. */
  lemma TextParts(num: nat, range: nat, base: nat, size: int, precision: int, st: Style) returns (a: int, digits: string, e: int)
    requires num < range && 2 <= base <= 36
    ensures Text(num, range, base, size, precision, st)
      == Copies(' ', a) + SignOf(num, range, st) + PrefixOf(base, st) + digits + Copies(' ', e)
    ensures AllDigits(digits, base) && digits != [] && Read(digits, base) == Magnitude(num, range, st)
  {
    hide Numeral, SignOf, PrefixOf, Magnitude, Text, Read, AllDigits;
    var sign, prefix := SignOf(num, range, st), PrefixOf(base, st);
    var numeral := Numeral(Magnitude(num, range, st), base, precision, st.upper);
    NumeralReads(Magnitude(num, range, st), base, precision, st.upper);
    var pad := size - |sign| - |prefix| - |numeral|;
    var zeros := if st.zeroPad && !st.left then pad else 0;
    a, e := if st.left || st.zeroPad then 0 else pad, if st.left then pad else 0;
    TextIs(num, range, base, size, precision, st, Copies(' ', a), Copies('0', zeros), Copies(' ', e));
    digits := Copies('0', zeros) + numeral;
    ReadZeros(zeros, numeral, base);
    ZerosAreDigits(zeros, numeral, base);
    Filled(Copies(' ', a), sign, prefix, Copies('0', zeros), numeral, Copies(' ', e));
  }

  /**
   Read back, the text is the number: unsigned, or signed as SIGN asks, in any base, width and
   precision, the most negative long included.
   */
  lemma TextReads(num: nat, range: nat, base: nat, size: int, precision: int, st: Style)
    requires IsLong(range) && num < range && 2 <= base <= 36
    ensures Scan(Text(num, range, base, size, precision, st), base, |PrefixOf(base, st)|)
      == if Negative(num, range, st) then num - range else num
  {
    hide Numeral, Scan, Read, Text, AllDigits;
    var a, digits, e := TextParts(num, range, base, size, precision, st);
    Scanned(a, SignOf(num, range, st), PrefixOf(base, st), digits, e, base);
  }

  function Max(a: int, b: int): int {
    if a > b then a else b
  }

  // ---------- how it looks ----------

  /** Digits beyond 9 are letters, capital ones exactly if UPPERCASE is set. */
  lemma DigitCase(d: nat, upper: bool)
    requires d < 36
    ensures Digit(d, upper) == if d < 10 then '0' + d as char else (if upper then 'A' else 'a') + (d - 10) as char
  {
    if upper {
      UpperIs(d);
    } else {
      LowerIs(d);
    }
  }

  lemma UpperIs(d: nat)
    requires d < 36
    ensures UPPER[d] == if d < 10 then '0' + d as char else 'A' + (d - 10) as char
  {
  }

  lemma LowerIs(d: nat)
    requires d < 36
    ensures LOWER[d] == if d < 10 then '0' + d as char else 'a' + (d - 10) as char
  {
  }

  /** A decimal digit, or a letter in the case UPPERCASE asks for. */
  predicate InCase(c: char, upper: bool) {
    '0' <= c <= '9' || (if upper then 'A' <= c <= 'Z' else 'a' <= c <= 'z')
  }

  lemma NumeralCase(n: nat, base: nat, precision: int, upper: bool)
    requires 2 <= base <= 36
    ensures forall c :: c in Numeral(n, base, precision, upper) ==> InCase(c, upper)
  {
    var ds := Digits(n, base);
    forall i | 0 <= i < |ds|
      ensures InCase(Written(ds, upper)[i], upper)
    {
      DigitCase(ds[|ds| - 1 - i], upper);
    }
  }

  /** What stands at the front of a text that is not padded: the sign, and after it the prefix. */
  function SignRoom(num: nat, range: nat, st: Style): nat {
    if st.signed && (num >= range / 2 || st.plus || st.space) then 1 else 0
  }

  function PrefixRoom(base: nat, st: Style): nat {
    if !st.prefix then 0 else if base == 16 then 2 else if base == 8 then 1 else 0
  }

  /**
   The text without padding. A signed number shows '-', or '+' if PLUS is set, or else ' ' if SPACE is set;
   after that hexadecimal shows "0x" and octal "0" if the prefix is asked for; then come as many digits
   as the number has or the precision asks for, in the case of UPPERCASE.
   */
  lemma TextShows(num: nat, range: nat, base: nat, precision: int, st: Style)
    requires num < range && 2 <= base <= 36
    ensures var t := Text(num, range, base, 0, precision, st);
      var k := SignRoom(num, range, st); var j := k + PrefixRoom(base, st);
      && |t| == j + Max(precision, |Digits(Magnitude(num, range, st), base)|)
      && (k == 1 ==> t[0] == if num >= range / 2 then '-' else if st.plus then '+' else ' ')
      && (st.prefix && base == 16 ==> t[k] == '0' && t[k + 1] == 'x')
      && (st.prefix && base == 8 ==> t[k] == '0')
      && (forall i :: j <= i < |t| ==> InCase(t[i], st.upper))
  {
    hide Digits, Magnitude, Numeral, InCase;
    var n := Magnitude(num, range, st);
    var sign, prefix, numeral := SignOf(num, range, st), PrefixOf(base, st), Numeral(n, base, precision, st.upper);
    NumeralIs(n, base, precision, st.upper);
    NumeralCase(n, base, precision, st.upper);
    assert Text(num, range, base, 0, precision, st) == sign + prefix + numeral;
    hide Text;
    var t, j := sign + prefix + numeral, |sign| + |prefix|;
    forall i | j <= i < |t|
      ensures InCase(t[i], st.upper)
    {
      assert t[i] == numeral[i - j];
    }
  }

  lemma TextBare(num: nat, range: nat, base: nat, precision: int, st: Style)
    requires num < range && 2 <= base <= 36
    ensures Text(num, range, base, 0, precision, st)
      == SignOf(num, range, st) + PrefixOf(base, st) + Numeral(Magnitude(num, range, st), base, precision, st.upper)
  {
    hide SignOf, PrefixOf, Numeral, Magnitude;
  }

  lemma PadLeft(a: string, sign: string, prefix: string, numeral: string)
    ensures a + sign + prefix + numeral == a + (sign + prefix + numeral)
  {
  }

  lemma PadZeros(sign: string, prefix: string, b: string, numeral: string)
    ensures sign + prefix + b + numeral == sign + prefix + (b + numeral)
  {
  }

  /** Zeros in front of a numeral are what a higher precision puts there. */
  lemma ZerosWiden(n: nat, base: nat, precision: int, width: int, upper: bool)
    requires 2 <= base <= 36
    ensures Copies('0', width - |Numeral(n, base, precision, upper)|) + Numeral(n, base, precision, upper)
      == Numeral(n, base, Max(precision, width), upper)
  {
    hide Digits, Written;
    var w := Written(Digits(n, base), upper);
    var z := precision - |w|;
    var pad := width - |Numeral(n, base, precision, upper)|;
    assert Copies('0', pad) + Copies('0', z) == Copies('0', Max(precision, width) - |w|);
    assert Copies('0', pad) + (Copies('0', z) + w) == Copies('0', pad) + Copies('0', z) + w;
  }

  /**
   Padding. With LEFT, spaces follow the text; without it and without ZEROPAD they come before it; with ZEROPAD
   alone the width acts as a precision for what sign and prefix leave of it.
   */
  lemma TextPads(num: nat, range: nat, base: nat, size: int, precision: int, st: Style)
    requires num < range && 2 <= base <= 36
    ensures var t := Text(num, range, base, size, precision, st); var bare := Text(num, range, base, 0, precision, st);
      var spaces := Copies(' ', size - |bare|);
      var width := size - SignRoom(num, range, st) - PrefixRoom(base, st);
      if st.left then t == bare + spaces
      else if !st.zeroPad then t == spaces + bare
      else t == Text(num, range, base, 0, Max(precision, width), st)
  {
    hide Numeral, Magnitude, Digits;
    var n := Magnitude(num, range, st);
    var sign, prefix, numeral := SignOf(num, range, st), PrefixOf(base, st), Numeral(n, base, precision, st.upper);
    var width := size - |sign| - |prefix|;
    var longer := Max(precision, width);
    NumeralIs(n, base, precision, st.upper);
    NumeralIs(n, base, longer, st.upper);
    ZerosWiden(n, base, precision, width, st.upper);
    TextBare(num, range, base, precision, st);
    TextBare(num, range, base, longer, st);
    hide SignOf, PrefixOf;
    var pad := width - |numeral|;
    PadLeft(Copies(' ', pad), sign, prefix, numeral);
    PadZeros(sign, prefix, Copies('0', pad), numeral);
  }

  /** The length: the width, or what the sign, the prefix and the digits take if that is more. */
  lemma TextLength(num: nat, range: nat, base: nat, size: int, precision: int, st: Style)
    requires num < range && 2 <= base <= 36
    ensures |Text(num, range, base, size, precision, st)| == Max(size, |SignOf(num, range, st)| + |PrefixOf(base, st)|
      + Max(precision, |Digits(Magnitude(num, range, st), base)|))
  {
    hide SignOf, PrefixOf, Digits, Magnitude;
  }
}
