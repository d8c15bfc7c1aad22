/** FormatUtil: the masks for CPF numbers (the Brazilian taxpayer id) and
    phone numbers, and the centring of a title line. */
module Format {
  import opened Base
  import opened Text

  // ---------------------------------------------------------------- CPF

  /** "ddd.ddd.ddd-dd". */
  predicate IsCpfMask(r: string) {
    && |r| == 14
    && r[3] == '.' && r[7] == '.' && r[11] == '-'
    && forall i :: 0 <= i < 14 && i != 3 && i != 7 && i != 11 ==> IsDigit(r[i])
  }

  /** `formatCPF`: the digits of `cpf` in the CPF mask when there are
      exactly eleven of them, otherwise `cpf` itself. */
  function FormatCPF(cpf: string): (r: string)
    ensures |Digits(cpf)| != 11 ==> r == cpf
    ensures |Digits(cpf)| == 11 ==> IsCpfMask(r)
  {
    var d := Digits(cpf);
    if |d| != 11 then cpf
    else d[..3] + "." + d[3..6] + "." + d[6..9] + "-" + d[9..]
  }

  /** The digits of four digit groups joined by the CPF separators. */
  lemma CpfDigits(a: string, b: string, c: string, e: string)
    requires AllDigits(a) && AllDigits(b) && AllDigits(c) && AllDigits(e)
    ensures Digits(a + "." + b + "." + c + "-" + e) == a + b + c + e
  {
    DigitsOfDigits(a); DigitsOfDigits(b); DigitsOfDigits(c); DigitsOfDigits(e);
    DigitsOfNonDigits("."); DigitsOfNonDigits("-");
    var p1 := a + ".";
    var p2 := p1 + b;
    var p3 := p2 + ".";
    var p4 := p3 + c;
    var p5 := p4 + "-";
    DigitsAppend(a, ".");
    assert Digits(p1) == a;
    DigitsAppend(p1, b);
    assert Digits(p2) == a + b;
    DigitsAppend(p2, ".");
    assert Digits(p3) == a + b;
    DigitsAppend(p3, c);
    assert Digits(p4) == a + b + c;
    DigitsAppend(p4, "-");
    assert Digits(p5) == a + b + c;
    DigitsAppend(p5, e);
  }

  /** Stripping the mask gives back the digits, in order. */
  lemma FormatCPFKeepsDigits(cpf: string)
    ensures Digits(FormatCPF(cpf)) == Digits(cpf)
  {
    var d := Digits(cpf);
    if |d| == 11 {
      CpfDigits(d[..3], d[3..6], d[6..9], d[9..]);
      assert d[..3] + d[3..6] + d[6..9] + d[9..] == d;
    }
  }

  /** A string in the CPF mask has eleven digits: its four digit groups. */
  lemma CpfMaskDigits(r: string)
    requires IsCpfMask(r)
    ensures Digits(r) == r[..3] + r[4..7] + r[8..11] + r[12..]
  {
    var a, b, c, e := r[..3], r[4..7], r[8..11], r[12..];
    assert AllDigits(a) by { forall k | 0 <= k < 3 ensures IsDigit(a[k]) { assert a[k] == r[k]; } }
    assert AllDigits(b) by { forall k | 0 <= k < 3 ensures IsDigit(b[k]) { assert b[k] == r[k + 4]; } }
    assert AllDigits(c) by { forall k | 0 <= k < 3 ensures IsDigit(c[k]) { assert c[k] == r[k + 8]; } }
    assert AllDigits(e) by { forall k | 0 <= k < 2 ensures IsDigit(e[k]) { assert e[k] == r[k + 12]; } }
    assert r == a + "." + b + "." + c + "-" + e;
    CpfDigits(a, b, c, e);
  }

  /** Formatting a formatted CPF changes nothing. */
  lemma FormatCPFIdempotent(cpf: string)
    ensures FormatCPF(FormatCPF(cpf)) == FormatCPF(cpf)
  {
    FormatCPFKeepsDigits(cpf);
    var d := Digits(cpf);
    if |d| == 11 {
      DigitsOfDigits(d);
    }
  }

  // ---------------------------------------------------------------- phone

  /** "(dd) ddddd-dddd" (`n` = 11) or "(dd) dddd-dddd" (`n` = 10). */
  predicate IsPhoneMask(r: string, n: nat)
    requires n == 10 || n == 11
  {
    && |r| == n + 4
    && r[0] == '(' && r[3] == ')' && r[4] == ' ' && r[n - 1] == '-'
    && forall i :: 0 <= i < n + 4 && i != 0 && i != 3 && i != 4 && i != n - 1 ==> IsDigit(r[i])
  }

  /** `formatPhone`: eleven digits as a mobile number, ten as a landline,
      anything else unchanged. */
  function FormatPhone(phone: string): (r: string)
    ensures |Digits(phone)| == 11 ==> IsPhoneMask(r, 11)
    ensures |Digits(phone)| == 10 ==> IsPhoneMask(r, 10)
    ensures |Digits(phone)| != 10 && |Digits(phone)| != 11 ==> r == phone
  {
    var d := Digits(phone);
    if |d| == 11 then
      PhoneMaskOf(d[..2], d[2..7], d[7..]);
      "(" + d[..2] + ") " + d[2..7] + "-" + d[7..]
    else if |d| == 10 then
      PhoneMaskOf(d[..2], d[2..6], d[6..]);
      "(" + d[..2] + ") " + d[2..6] + "-" + d[6..]
    else phone
  }

  /** An area code, a four- or five-digit prefix and a four-digit line
      number in the phone layout make a phone mask. */
  lemma PhoneMaskOf(a: string, b: string, c: string)
    requires |a| == 2 && (|b| == 4 || |b| == 5) && |c| == 4
    requires AllDigits(a) && AllDigits(b) && AllDigits(c)
    ensures IsPhoneMask("(" + a + ") " + b + "-" + c, 6 + |b|)
  {
    var r := "(" + a + ") " + b + "-" + c;
    forall i | 0 <= i < |r| && i != 0 && i != 3 && i != 4 && i != 5 + |b|
      ensures IsDigit(r[i])
    {
      if i < 3 {
        assert r[i] == a[i - 1];
      } else if i < 5 + |b| {
        assert r[i] == b[i - 5];
      } else {
        assert r[i] == c[i - 6 - |b|];
      }
    }
  }

  /** The digits of three digit groups in a phone mask. */
  lemma {:induction false} PhoneDigits(a: string, b: string, c: string)
    requires AllDigits(a) && AllDigits(b) && AllDigits(c)
    ensures Digits("(" + a + ") " + b + "-" + c) == a + b + c
  {
    DigitsOfDigits(a); DigitsOfDigits(b); DigitsOfDigits(c);
    DigitsOfNonDigits("("); DigitsOfNonDigits(") "); DigitsOfNonDigits("-");
    var p1 := "(" + a;
    var p2 := p1 + ") ";
    var p3 := p2 + b;
    var p4 := p3 + "-";
    DigitsAppend("(", a);
    assert Digits(p1) == a;
    DigitsAppend(p1, ") ");
    assert Digits(p2) == a;
    DigitsAppend(p2, b);
    assert Digits(p3) == a + b;
    DigitsAppend(p3, "-");
    assert Digits(p4) == a + b;
    DigitsAppend(p4, c);
  }

  /** Stripping the mask gives back the digits, in order. */
  lemma FormatPhoneKeepsDigits(phone: string)
    ensures Digits(FormatPhone(phone)) == Digits(phone)
  {
    var d := Digits(phone);
    if |d| == 11 {
      PhoneDigits(d[..2], d[2..7], d[7..]);
      assert d[..2] + d[2..7] + d[7..] == d;
    } else if |d| == 10 {
      PhoneDigits(d[..2], d[2..6], d[6..]);
      assert d[..2] + d[2..6] + d[6..] == d;
    }
  }

  /** Formatting a formatted phone number changes nothing. */
  lemma FormatPhoneIdempotent(phone: string)
    ensures FormatPhone(FormatPhone(phone)) == FormatPhone(phone)
  {
    FormatPhoneKeepsDigits(phone);
    var d := Digits(phone);
    if |d| == 10 || |d| == 11 {
      DigitsOfDigits(d);
    }
  }

  // ---------------------------------------------------------------- centring

  /** Java's `/` on `int`: the quotient truncated toward zero, so the
      remainder `a - q * b` has the sign of `a` and is smaller than `b` in
      magnitude. */
  function TruncDiv(a: int, b: int): (q: int)
    requires b > 0
    ensures a >= 0 ==> 0 <= a - q * b < b
    ensures a < 0 ==> -b < a - q * b <= 0
  {
    if a >= 0 then a / b else -((-a) / b)
  }

  function Spaces(n: nat): (r: string)
    ensures |r| == n && forall i :: 0 <= i < n ==> r[i] == ' '
  {
    seq(n, _ => ' ')
  }

  /** The padding `centerText` computes: `(width - text.length()) / 2` in
      `int` arithmetic, half the room left, rounded toward zero. */
  function CenterPadding(textLength: nat, width: Int32): (r: int)
    requires textLength <= MAX_INT
    ensures MIN_INT <= width - textLength ==> r == TruncDiv(width - textLength, 2)
  {
    TruncDiv(Wrap32(width - textLength), 2)
  }

  /** `centerText(text, width)`: the padding's worth of spaces (none when
      it is negative) followed by `text`; no padding on the right. The
      length Java subtracts is counted in UTF-16 units. */
  function CenterText(text: string, width: Int32): (r: string)
    requires Utf16Length(text) <= MAX_INT
    ensures |r| >= |text| && r[|r| - |text|..] == text
    ensures forall i :: 0 <= i < |r| - |text| ==> r[i] == ' '
    ensures var padding := CenterPadding(Utf16Length(text), width);
      |r| - |text| == if padding > 0 then padding else 0
  {
    var padding := CenterPadding(Utf16Length(text), width);
    Spaces(if padding > 0 then padding else 0) + text
  }

  /** Spaces take one UTF-16 unit each. */
  lemma SpacesUtf16(n: nat)
    ensures Utf16Length(Spaces(n)) == n
  {
    Utf16LengthBmp(Spaces(n));
  }

  /** When the text fits, it ends at most one column short of `width` and
      the gap on the right is the gap on the left or one more, all counted
      in UTF-16 units as `String.length()` counts them. */
  lemma CenterTextCentres(text: string, width: Int32)
    requires Utf16Length(text) <= width
    ensures var r := CenterText(text, width);
      var left, right := |r| - |text|, width - Utf16Length(r);
      Utf16Length(r) <= width && left <= right <= left + 1
  {
    var r := CenterText(text, width);
    SpacesUtf16(|r| - |text|);
    assert r == Spaces(|r| - |text|) + text;
    Utf16LengthAppend(Spaces(|r| - |text|), text);
  }

  /** When the text does not fit, it comes back unchanged. */
  lemma CenterTextNarrow(text: string, width: Int32)
    requires Utf16Length(text) <= MAX_INT && width <= Utf16Length(text) && MIN_INT <= width - Utf16Length(text)
    ensures CenterText(text, width) == text
  {
    assert Spaces(0) + text == text;
  }

  /** `width - text.length()` overflows for a width near `Integer.MIN_VALUE`:
      the difference wraps to a large positive padding. */
  lemma CenterTextWrapsAround()
    ensures |CenterText("x", -0x8000_0000)| == 0x4000_0000
  {
    assert Wrap32(-0x8000_0000 - 1) == 0x7fff_ffff;
  }
}
