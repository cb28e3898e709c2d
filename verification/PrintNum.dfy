/** Number output (lib/print.c): what print_num writes can be read back. */
module PrintNum {

  // ---------- digits ----------

  function Digit(d: nat, upcase: bool): char
    requires d < 16
  {
    if d <= 9 then '0' + d as char else if upcase then 'A' + (d - 10) as char else 'a' + (d - 10) as char
  }

  function DigitValue(c: char): nat {
    if '0' <= c <= '9' then c as int - '0' as int
    else if 'A' <= c <= 'F' then c as int - 'A' as int + 10
    else if 'a' <= c <= 'f' then c as int - 'a' as int + 10
    else 16
  }

  /** Division without a remainder and the remainder, by repeated subtraction. */
  function Quot(u: nat, b: nat): (q: nat)
    requires b >= 2
    ensures q <= u && (u > 0 ==> q < u)
  {
    if u < b then 0 else 1 + Quot(u - b, b)
  }

  function Rem(u: nat, b: nat): (r: nat)
    requires b >= 2
    ensures r < b
  {
    if u < b then u else Rem(u - b, b)
  }

  lemma {:induction false} Recombine(u: nat, b: nat)
    requires b >= 2
    ensures Quot(u, b) * b + Rem(u, b) == u
  {
    if u >= b {
      Recombine(u - b, b);
    }
  }

  lemma Division(u: nat, b: nat)
    requires b >= 2
    ensures Quot(u, b) == u / b && Rem(u, b) == u % b
  {
    Recombine(u, b);
    OneQuotient(u, b, Quot(u, b), Rem(u, b));
  }

  lemma OneQuotient(u: nat, b: nat, q: nat, r: nat)
    requires b > 0 && r < b && u == q * b + r
    ensures q == u / b && r == u % b
  {
    var d := q - u / b;
    assert u == u / b * b + u % b;
    assert d * b == u % b - r;
    if d >= 1 {
      Multiply(b, 1, d);
    }
  }

  /** The digits of u, the lowest first, as the digit loop leaves them in the buffer. */
  function Low(u: nat, base: nat, upcase: bool): (s: string)
    requires 2 <= base <= 16
    ensures |s| >= 1
    decreases u, base
  {
    [Digit(Rem(u, base), upcase)] + (if Quot(u, base) == 0 then [] else Low(Quot(u, base), base, upcase))
  }

  function Backwards(s: string): string { seq(|s|, i requires 0 <= i < |s| => s[|s| - 1 - i]) }

  function Digits(u: nat, base: nat, upcase: bool): string
    requires 2 <= base <= 16
  {
    Backwards(Low(u, base, upcase))
  }

  /** The number that a string of digits stands for. */
  function Number(s: string, base: nat): nat {
    if s == [] then 0 else Number(s[..|s| - 1], base) * base + DigitValue(s[|s| - 1])
  }

  lemma BackwardsCons(c: char, s: string)
    ensures Backwards([c] + s) == Backwards(s) + [c]
  {
  }

  lemma NumberAppend(s: string, c: char, base: nat)
    ensures Number(s + [c], base) == Number(s, base) * base + DigitValue(c)
  {
    assert (s + [c])[..|s|] == s;
  }

  lemma DigitValueOf(d: nat, upcase: bool)
    requires d < 16
    ensures DigitValue(Digit(d, upcase)) == d
  {
  }

  /** One round of the digit loop, seen from the number that is read back. */
  lemma NumberStep(q: nat, d: nat, rest: string, base: nat, upcase: bool)
    requires d < 16 && Number(Backwards(rest), base) == q
    ensures Number(Backwards([Digit(d, upcase)] + rest), base) == q * base + d
  {
    BackwardsCons(Digit(d, upcase), rest);
    NumberAppend(Backwards(rest), Digit(d, upcase), base);
    DigitValueOf(d, upcase);
  }

  lemma {:induction false} DigitsNumber(u: nat, base: nat, upcase: bool)
    requires 2 <= base <= 16
    ensures Number(Digits(u, base, upcase), base) == u
    decreases u
  {
    Recombine(u, base);
    if Quot(u, base) == 0 {
      NumberStep(0, Rem(u, base), [], base, upcase);
    } else {
      DigitsNumber(Quot(u, base), base, upcase);
      NumberStep(Quot(u, base), Rem(u, base), Low(Quot(u, base), base, upcase), base, upcase);
    }
  }

  function Power(base: nat, n: nat): nat { if n == 0 then 1 else base * Power(base, n - 1) }

  /** No more digits than needed: k + 1 digits are written exactly for the numbers from base^k,
      and 0 has one digit. */
  lemma {:induction false} DigitCount(u: nat, base: nat, upcase: bool)
    requires 2 <= base <= 16
    ensures var n := |Digits(u, base, upcase)|;
      n >= 1 && u < Power(base, n) && (n > 1 ==> Power(base, n - 1) <= u)
    decreases u
  {
    Recombine(u, base);
    if Quot(u, base) != 0 {
      DigitCount(Quot(u, base), base, upcase);
      CountStep(Quot(u, base), Rem(u, base), base, |Low(Quot(u, base), base, upcase)|);
    } else {
      assert Power(base, 1) == base * Power(base, 0);
    }
  }

  lemma CountStep(q: nat, r: nat, base: nat, n: nat)
    requires r < base && n >= 1 && q < Power(base, n) && q >= 1 && (n > 1 ==> Power(base, n - 1) <= q)
    ensures q * base + r < Power(base, n + 1) && Power(base, n) <= q * base + r
  {
    Multiply(base, q + 1, Power(base, n));
    assert base * (q + 1) == q * base + base;
    if n > 1 {
      Multiply(base, Power(base, n - 1), q);
    } else {
      assert Power(base, 1) == base * Power(base, 0);
      Multiply(base, 1, q);
    }
  }

  lemma Multiply(b: nat, x: nat, y: nat)
    requires x <= y
    ensures b * x <= b * y
  {
  }

  lemma {:induction false} DigitsAreDigits(u: nat, base: nat, upcase: bool)
    requires 2 <= base <= 16
    ensures forall i | 0 <= i < |Low(u, base, upcase)| :: DigitValue(Low(u, base, upcase)[i]) < base
    decreases u
  {
    DigitValueOf(Rem(u, base), upcase);
    if Quot(u, base) != 0 {
      DigitsAreDigits(Quot(u, base), base, upcase);
    }
  }

  // ---------- the whole field ----------

  function Copies(c: char, n: nat): (s: string)
    ensures |s| == n
  {
    seq(n, _ => c)
  }

  function Sign(neg: bool): string { if neg then "-" else "" }

  /** Sign and digits in a field of at least `length` characters. */
  function Field(digits: string, neg: bool, length: nat, ladjust: bool, padc: char): string {
    var body := Sign(neg) + digits;
    var pad := if length > |body| then length - |body| else 0;
    if ladjust then body + Copies(' ', pad)
    else if padc == '0' then Sign(neg) + Copies('0', pad) + digits
    else Copies(padc, pad) + body
  }

  /** What print_num writes. */
  function Render(u: nat, base: nat, neg: bool, length: nat, ladjust: bool, padc: char, upcase: bool): string
    requires 2 <= base <= 16
  {
    Field(Digits(u, base, upcase), neg, length, ladjust, padc)
  }

  function DropLeading(s: string, c: char): string {
    if s != [] && s[0] == c then DropLeading(s[1..], c) else s
  }

  function DropTrailing(s: string, c: char): string {
    if s != [] && s[|s| - 1] == c then DropTrailing(s[..|s| - 1], c) else s
  }

  /** Reading a field back: without its padding, the sign and the number. */
  function Decode(s: string, base: nat, padc: char): (bool, nat) {
    var t := DropTrailing(if padc == '0' then s else DropLeading(s, padc), ' ');
    if t != [] && t[0] == '-' then (true, Number(t[1..], base)) else (false, Number(t, base))
  }

  lemma {:induction false} DropCopies(c: char, n: nat, s: string)
    requires s != [] && s[0] != c
    ensures DropLeading(Copies(c, n) + s, c) == s
    decreases n
  {
    if n == 0 {
      assert Copies(c, 0) + s == s;
    } else {
      assert (Copies(c, n) + s)[1..] == Copies(c, n - 1) + s;
      DropCopies(c, n - 1, s);
    }
  }

  lemma {:induction false} DropTrailingCopies(c: char, n: nat, s: string)
    requires s != [] && s[|s| - 1] != c
    ensures DropTrailing(s + Copies(c, n), c) == s
    decreases n
  {
    if n == 0 {
      assert s + Copies(c, 0) == s;
    } else {
      assert (s + Copies(c, n))[..|s| + n - 1] == s + Copies(c, n - 1);
      DropTrailingCopies(c, n - 1, s);
    }
  }

  lemma {:induction false} LeadingZeros(n: nat, s: string, base: nat)
    ensures Number(Copies('0', n) + s, base) == Number(s, base)
    decreases n + |s|
  {
    if s != [] {
      assert (Copies('0', n) + s)[..n + |s| - 1] == Copies('0', n) + s[..|s| - 1];
      LeadingZeros(n, s[..|s| - 1], base);
    } else if n > 0 {
      assert Copies('0', n) + s == Copies('0', n) && Copies('0', n)[..n - 1] == Copies('0', n - 1) + s;
      LeadingZeros(n - 1, s, base);
    }
  }

  /** A padding character that cannot be taken for part of the number, or the zero. */
  predicate GoodPad(padc: char) { padc == '0' || (padc != '-' && DigitValue(padc) == 16) }

  /** The field is as wide as asked for, or as the number needs. */
  lemma RenderLength(u: nat, base: nat, neg: bool, length: nat, ladjust: bool, padc: char, upcase: bool)
    requires 2 <= base <= 16
    ensures var needed := |Digits(u, base, upcase)| + (if neg then 1 else 0);
      |Render(u, base, neg, length, ladjust, padc, upcase)| == if length < needed then needed else length
  {
  }

  /** Stripped of its padding, the field is `body`. */
  lemma DecodeStripped(t: string, body: string, base: nat, padc: char, neg: bool, u: nat)
    requires body != [] && DropTrailing(if padc == '0' then t else DropLeading(t, padc), ' ') == body
    requires if neg then body[0] == '-' && Number(body[1..], base) == u else body[0] != '-' && Number(body, base) == u
    ensures Decode(t, base, padc) == (neg, u)
  {
  }

  lemma DecodeLeft(body: string, pad: nat, padc: char)
    requires body != [] && body[0] != padc && body[|body| - 1] != ' '
    ensures DropTrailing(body + Copies(' ', pad), ' ') == body
    ensures DropTrailing(DropLeading(body + Copies(' ', pad), padc), ' ') == body
  {
    DropTrailingCopies(' ', pad, body);
  }

  lemma DecodeRight(body: string, pad: nat, padc: char)
    requires body != [] && body[0] != padc && body[|body| - 1] != ' '
    ensures DropTrailing(DropLeading(Copies(padc, pad) + body, padc), ' ') == body
  {
    DropCopies(padc, pad, body);
  }

  /** A string that is made of digits at both ends. */
  predicate Digital(digits: string) {
    digits != [] && DigitValue(digits[0]) < 16 && DigitValue(digits[|digits| - 1]) < 16
  }

  lemma SignedBody(digits: string, neg: bool, padc: char)
    requires Digital(digits)
    ensures var body := Sign(neg) + digits;
      && body != [] && body[|body| - 1] != ' ' && body[0] != ' '
      && (padc != '-' && DigitValue(padc) == 16 ==> body[0] != padc)
      && (if neg then body[0] == '-' && body[1..] == digits else body[0] != '-' && body == digits)
  {
  }

  lemma ZerosDigital(digits: string, pad: nat)
    requires Digital(digits)
    ensures Digital(Copies('0', pad) + digits)
  {
    var t := Copies('0', pad) + digits;
    assert t[0] == if pad == 0 then digits[0] else '0';
    assert t[|t| - 1] == digits[|digits| - 1];
  }

  /** Sign and digits without any padding. */
  lemma DecodeUnpadded(digits: string, neg: bool, base: nat)
    requires Digital(digits)
    ensures Decode(Sign(neg) + digits, base, '0') == (neg, Number(digits, base))
  {
    var t := Sign(neg) + digits;
    SignedBody(digits, neg, ' ');
    DecodeStripped(t, t, base, '0', neg, Number(digits, base));
  }

  lemma Regroup(a: string, b: string, c: string)
    ensures a + b + c == a + (b + c)
  {
  }

  lemma DecodeZeros(digits: string, pad: nat, neg: bool, base: nat)
    requires Digital(digits)
    ensures Decode(Sign(neg) + Copies('0', pad) + digits, base, '0') == (neg, Number(digits, base))
  {
    Regroup(Sign(neg), Copies('0', pad), digits);
    ZerosDigital(digits, pad);
    DecodeUnpadded(Copies('0', pad) + digits, neg, base);
    LeadingZeros(pad, digits, base);
  }

  lemma DecodeField(digits: string, base: nat, neg: bool, length: nat, ladjust: bool, padc: char)
    requires Digital(digits) && GoodPad(padc)
    ensures Decode(Field(digits, neg, length, ladjust, padc), base, padc) == (neg, Number(digits, base))
  {
    var body := Sign(neg) + digits;
    var pad := if length > |body| then length - |body| else 0;
    SignedBody(digits, neg, padc);
    if !ladjust && padc == '0' {
      DecodeZeros(digits, pad, neg, base);
    } else {
      if !ladjust {
        DecodeRight(body, pad, padc);
      } else if padc == '0' {
        DropTrailingCopies(' ', pad, body);
      } else {
        DecodeLeft(body, pad, padc);
      }
      DecodeStripped(Field(digits, neg, length, ladjust, padc), body, base, padc, neg, Number(digits, base));
    }
  }

  /** Whatever the base, the sign, the width, the adjustment and the padding, the field reads
      back as the number that was printed. */
  lemma DecodeRender(u: nat, base: nat, neg: bool, length: nat, ladjust: bool, padc: char, upcase: bool)
    requires 2 <= base <= 16 && GoodPad(padc)
    ensures Decode(Render(u, base, neg, length, ladjust, padc, upcase), base, padc) == (neg, u)
  {
    DigitsNumber(u, base, upcase);
    DigitsAreDigits(u, base, upcase);
    DecodeField(Digits(u, base, upcase), base, neg, length, ladjust, padc);
  }

  /** A digit in the case asked for. */
  predicate CaseOf(c: char, upcase: bool) {
    '0' <= c <= '9' || (if upcase then 'A' <= c <= 'F' else 'a' <= c <= 'f')
  }

  lemma {:induction false} LowCase(u: nat, base: nat, upcase: bool)
    requires 2 <= base <= 16
    ensures forall i | 0 <= i < |Low(u, base, upcase)| :: CaseOf(Low(u, base, upcase)[i], upcase)
    decreases u
  {
    if Quot(u, base) != 0 {
      LowCase(Quot(u, base), base, upcase);
    }
  }

  /** Where everything stands: left-adjusted, sign and digits and then blanks; with zeros, they lie
      between the sign and the digits; otherwise the padding comes first.  The digits beyond 9
      are letters of the case asked for. */
  lemma FieldLayout(u: nat, base: nat, neg: bool, length: nat, ladjust: bool, padc: char, upcase: bool)
    requires 2 <= base <= 16
    ensures var text, digits := Render(u, base, neg, length, ladjust, padc, upcase), Digits(u, base, upcase);
      var sign := if neg then 1 else 0;
      var pad := |text| - |digits| - sign;
      && pad >= 0 && (forall c | c in digits :: CaseOf(c, upcase))
      && (ladjust ==>
            && (neg ==> text[0] == '-') && text[sign..sign + |digits|] == digits
            && forall i | sign + |digits| <= i < |text| :: text[i] == ' ')
      && (!ladjust ==> text[|text| - |digits|..] == digits)
      && (!ladjust && padc == '0' ==> (neg ==> text[0] == '-') && forall i | sign <= i < sign + pad :: text[i] == '0')
      && (!ladjust && padc != '0' ==> (neg ==> text[pad] == '-') && forall i | 0 <= i < pad :: text[i] == padc)
  {
    LowCase(u, base, upcase);
  }

  // ---------- the buffer ----------

  method PutDigit(buf: array<char>, p: nat, tmp: nat, upcase: bool)
    requires p < buf.Length && tmp < 16
    modifies buf
    ensures buf[..p + 1] == old(buf[..p]) + [Digit(tmp, upcase)]
  {
    if tmp <= 9 {
      buf[p] := '0' + tmp as char;
    } else if upcase {
      buf[p] := 'A' + (tmp - 10) as char;
    } else {
      buf[p] := 'a' + (tmp - 10) as char;
    }
  }

  /** The digits still to come. */
  function Rest(u: nat, base: nat, upcase: bool): string
    requires 2 <= base <= 16
  {
    if u == 0 then [] else Low(u, base, upcase)
  }

  /** The body of the digit loop; the result is u / base. */
  method DigitRound(buf: array<char>, p: nat, u: nat, base: nat, upcase: bool) returns (q: nat)
    requires 2 <= base <= 16 && p < buf.Length
    modifies buf
    ensures buf[..p + 1] + Rest(q, base, upcase) == old(buf[..p]) + Low(u, base, upcase)
    ensures q == 0 || q < u
  {
    Division(u, base);
    PutDigit(buf, p, u % base, upcase);
    return u / base;
  }

  /** The digit loop: fills the buffer from its start, and returns where it stopped. */
  method PutDigits(buf: array<char>, u0: nat, base: nat, upcase: bool) returns (p: nat)
    requires 2 <= base <= 16 && |Low(u0, base, upcase)| <= buf.Length
    modifies buf
    ensures p == |Low(u0, base, upcase)| && buf[..p] == Low(u0, base, upcase)
  {
    ghost var low := Low(u0, base, upcase);
    var u := DigitRound(buf, 0, u0, base, upcase);
    p := 1;
    while u != 0
      invariant p <= |low| && low == buf[..p] + Rest(u, base, upcase)
      decreases u
    {
      u := DigitRound(buf, p, u, base, upcase);
      p := p + 1;
    }
  }

  method Fill(buf: array<char>, from: nat, to: nat, c: char)
    requires from <= to <= buf.Length
    modifies buf
    ensures buf[..from] == old(buf[..from]) && buf[from..to] == Copies(c, to - from) && buf[to..] == old(buf[to..])
  {
    var i := from;
    while i < to
      invariant from <= i <= to
      invariant forall k | 0 <= k < buf.Length :: buf[k] == if from <= k < i then c else old(buf[k])
    {
      buf[i] := c;
      i := i + 1;
    }
  }

  /** The reversal in place of the first n characters. */
  method Reverse(buf: array<char>, n: nat)
    requires n <= buf.Length
    modifies buf
    ensures buf[..n] == Backwards(old(buf[..n])) && buf[n..] == old(buf[n..])
  {
    var begin, end := 0, n - 1;
    while end > begin
      invariant 0 <= begin && end == n - 1 - begin && begin <= end + 2
      invariant forall k | 0 <= k < buf.Length ::
        buf[k] == if k < n && (k < begin || k > end) then old(buf[n - 1 - k]) else old(buf[k])
    {
      buf[begin], buf[end] := buf[end], buf[begin];
      begin := begin + 1;
      end := end - 1;
    }
  }

  lemma {:induction false} FitsBuffer(u: nat, base: nat, upcase: bool, k: nat)
    requires 2 <= base <= 16 && k > 0 && u < Power(2, k)
    ensures |Low(u, base, upcase)| <= k
    decreases k
  {
    if Quot(u, base) != 0 {
      Recombine(u, base);
      Multiply(Quot(u, base), 2, base);
      FitsBuffer(Quot(u, base), base, upcase, k - 1);
    }
  }

  lemma {:induction false} PowerSum(a: nat, b: nat)
    ensures Power(2, a + b) == Power(2, a) * Power(2, b)
    decreases a
  {
    if a > 0 {
      PowerSum(a - 1, b);
      assert 2 * (Power(2, a - 1) * Power(2, b)) == (2 * Power(2, a - 1)) * Power(2, b);
    }
  }

  lemma TwoTo32()
    ensures Power(2, 32) == 0x1_0000_0000
  {
    PowerSum(16, 16);
    PowerSum(8, 8);
    assert Power(2, 8) == 256;
  }

  lemma BackwardsConcat(a: string, b: string)
    ensures Backwards(a + b) == Backwards(b) + Backwards(a)
  {
  }

  /** The two orders in which the buffer is filled, once reversed. */
  lemma ReversedParts(low: string, sign: string, pad: string)
    requires |sign| <= 1 && forall i, j | 0 <= i < |pad| && 0 <= j < |pad| :: pad[i] == pad[j]
    ensures Backwards(low + sign) == sign + Backwards(low)
    ensures Backwards(low + sign + pad) == pad + (sign + Backwards(low))
    ensures Backwards(low + pad + sign) == sign + pad + Backwards(low)
  {
    assert Backwards(pad) == pad && Backwards(sign) == sign;
    BackwardsConcat(low, sign);
    BackwardsConcat(low + sign, pad);
    BackwardsConcat(low + pad, sign);
    BackwardsConcat(low, pad);
  }

  /** The buffer before it is reversed. */
  function Padded(low: string, neg: bool, ladjust: bool, padc: char, pad: nat): string {
    if neg && !ladjust && padc == '0' then low + Copies('0', pad) + "-"
    else low + Sign(neg) + Copies(if ladjust then ' ' else padc, pad)
  }

  /** The padding step. */
  method Pad(buf: array<char>, actualLength: nat, length: nat, neg: bool, ladjust: bool, padc0: char, ghost low: string)
    requires actualLength <= length <= buf.Length && buf[..actualLength] == low + Sign(neg)
    modifies buf
    ensures buf[..length] == Padded(low, neg, ladjust, padc0, length - actualLength)
  {
    var padc := padc0;
    if ladjust {
      padc := ' ';
    }
    if neg && !ladjust && padc == '0' {
      assert buf[..actualLength - 1] == low;
      Fill(buf, actualLength - 1, length - 1, padc);
      assert buf[..length - 1] == low + Copies('0', length - actualLength);
      buf[length - 1] := '-';
      assert buf[..length] == buf[..length - 1] + ['-'];
    } else {
      Fill(buf, actualLength, length, padc);
      assert buf[..length] == buf[..actualLength] + buf[actualLength..length];
    }
  }

  /** What is in the buffer after the reversal, of all of it or of all but the padding. */
  function Turned(low: string, neg: bool, ladjust: bool, padc: char, pad: nat): string {
    if ladjust then Backwards(low + Sign(neg)) + Copies(' ', pad) else Backwards(Padded(low, neg, ladjust, padc, pad))
  }

  lemma TurnedIsField(low: string, neg: bool, length: nat, ladjust: bool, padc: char)
    ensures var needed := |low| + |Sign(neg)|;
      Field(Backwards(low), neg, length, ladjust, padc) ==
        Turned(low, neg, ladjust, padc, if length > needed then length - needed else 0)
  {
    var needed := |low| + |Sign(neg)|;
    ReversedParts(low, Sign(neg), Copies(padc, if length > needed then length - needed else 0));
  }

  /** The reversal and the output. */
  method ReverseText(buf: array<char>, p: nat, length: nat, ladjust: bool, ghost body: string) returns (text: string)
    requires p == |body| && p <= length <= buf.Length
    requires ladjust ==> buf[..length] == body + Copies(' ', length - p)
    modifies buf
    ensures text == if ladjust then Backwards(body) + Copies(' ', length - p) else Backwards(old(buf[..length]))
  {
    if ladjust {
      assert buf[..p] == buf[..length][..p] && buf[p..length] == buf[..length][p..];
      assert buf[p..length] == buf[p..][..length - p];
      Reverse(buf, p);
      assert buf[p..length] == buf[p..][..length - p];
      text := buf[..length];
      assert text == buf[..p] + buf[p..length];
    } else {
      Reverse(buf, length);
      text := buf[..length];
    }
  }

  method PutSign(buf: array<char>, p0: nat, neg: bool) returns (p: nat)
    requires p0 < buf.Length
    modifies buf
    ensures p == p0 + |Sign(neg)| <= buf.Length && buf[..p] == old(buf[..p0]) + Sign(neg)
  {
    p := p0;
    if neg {
      buf[p] := '-';
      p := p + 1;
    }
  }

  /** Everything after the sign. */
  method Finish(buf: array<char>, actualLength: nat, neg: bool, length0: nat, ladjust: bool, padc: char,
                ghost low: string)
    returns (text: string)
    requires actualLength == |low| + |Sign(neg)| <= buf.Length && length0 <= buf.Length
    requires buf[..actualLength] == low + Sign(neg)
    modifies buf
    ensures text == Field(Backwards(low), neg, length0, ladjust, padc)
  {
    var length := if length0 < actualLength then actualLength else length0;
    Pad(buf, actualLength, length, neg, ladjust, padc, low);
    TurnedIsField(low, neg, length0, ladjust, padc);
    text := ReverseText(buf, actualLength, length, ladjust, low + Sign(neg));
  }

  /** print_num; `text` is what goes to the output. */
  method PrintNum(u: nat, base: nat, neg: bool, length: nat, ladjust: bool, padc: char, upcase: bool)
    returns (text: string)
    requires 2 <= base <= 16 && u < 0x1_0000_0000
    ensures text == Render(u, base, neg, length, ladjust, padc, upcase)
  {
    TwoTo32();
    FitsBuffer(u, base, upcase, 32);
    var buf := new char[length + 70];
    var p := PutDigits(buf, u, base, upcase);
    p := PutSign(buf, p, neg);
    text := Finish(buf, p, neg, length, ladjust, padc, Low(u, base, upcase));
  }
}
