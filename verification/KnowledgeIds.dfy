/** Canonical, zero-padded id sequences and the knowledge ids built from them. */
module KnowledgeIds {
  import opened Wrappers
  import opened Widths

  // ---------------------------------------------------------------- decimal text

  predicate IsDigit(c: char) {
    '0' <= c <= '9'
  }

  predicate AllDigits(s: string) {
    forall i :: 0 <= i < |s| ==> IsDigit(s[i])
  }

  function DigitOf(n: nat): (c: char)
    requires n < 10
    ensures IsDigit(c) && c as int - '0' as int == n
  {
    ('0' as int + n) as char
  }

  function Decimal(n: nat): string {
    if n < 10 then [DigitOf(n)] else Decimal(n / 10) + [DigitOf(n % 10)]
  }

  function Value(s: string): nat
    requires AllDigits(s)
  {
    if s == "" then 0 else 10 * Value(s[..|s| - 1]) + (s[|s| - 1] as int - '0' as int)
  }

  function Zeros(k: nat): (z: string)
    ensures |z| == k && forall i :: 0 <= i < k ==> z[i] == '0'
  {
    seq(k, _ => '0')
  }

  function Pad(s: string, width: nat): string {
    if |s| < width then Zeros(width - |s|) + s else s
  }

  // ---------------------------------------------------------------- the codec

  function Format(n: nat): string {
    if n < 10000 then Pad(Decimal(n), 4) else Decimal(n)
  }

  function Parse(text: string): Option<nat> {
    if text == "" || !AllDigits(text) then None
    else
      var n := Value(text);
      if n > U64_MAX || n == 0 then None
      else if Format(n) == text then Some(n) else None
  }

  // ---------------------------------------------------------------- decimal facts

  lemma {:induction false} DecimalHasValue(n: nat)
    ensures Decimal(n) != "" && AllDigits(Decimal(n)) && Value(Decimal(n)) == n
  {
    if n < 10 {
      assert Decimal(n)[..0] == "";
    } else {
      DecimalHasValue(n / 10);
      assert Decimal(n)[..|Decimal(n)| - 1] == Decimal(n / 10);
    }
  }

  lemma {:induction false} ValueDropsZero(s: string)
    requires AllDigits(s) && s != "" && s[0] == '0'
    ensures AllDigits(s[1..]) && Value(s[1..]) == Value(s)
  {
    if |s| > 1 {
      ValueDropsZero(s[..|s| - 1]);
      assert s[1..][..|s| - 2] == s[..|s| - 1][1..];
    } else {
      assert s[..0] == "";
    }
  }

  lemma {:induction false} ValueDropsZeros(k: nat, s: string)
    requires AllDigits(s)
    ensures AllDigits(Zeros(k) + s) && Value(Zeros(k) + s) == Value(s)
  {
    if k == 0 {
      assert Zeros(0) + s == s;
    } else {
      ValueDropsZeros(k - 1, s);
      assert (Zeros(k) + s)[1..] == Zeros(k - 1) + s;
      ValueDropsZero(Zeros(k) + s);
    }
  }

  /** Digits without a leading zero are the decimal form of their value. */
  lemma {:induction false} DecimalOfValue(s: string)
    requires AllDigits(s) && s != "" && s[0] != '0'
    ensures Value(s) > 0 && Decimal(Value(s)) == s
  {
    var init, d := s[..|s| - 1], s[|s| - 1] as int - '0' as int;
    if init == "" {
      assert s == [s[0]];
    } else {
      DecimalOfValue(init);
      assert Value(s) / 10 == Value(init) && Value(s) % 10 == d;
      assert s == init + [s[|s| - 1]];
    }
  }

  /** Digits of a positive number are its decimal form behind zeros. */
  lemma {:induction false} DigitsArePadded(s: string)
    requires AllDigits(s) && Value(s) > 0
    ensures |Decimal(Value(s))| <= |s| && s == Zeros(|s| - |Decimal(Value(s))|) + Decimal(Value(s))
  {
    if s[0] != '0' {
      DecimalOfValue(s);
      assert s == Zeros(0) + s;
    } else {
      ValueDropsZero(s);
      DigitsArePadded(s[1..]);
      var k := |s| - |Decimal(Value(s))|;
      assert s == ['0'] + s[1..] && Zeros(k) == ['0'] + Zeros(k - 1);
    }
  }

  function Pow10(k: nat): nat {
    if k == 0 then 1 else 10 * Pow10(k - 1)
  }

  lemma {:induction false} ValueBelow(s: string)
    requires AllDigits(s)
    ensures Value(s) < Pow10(|s|)
  {
    if s != "" {
      ValueBelow(s[..|s| - 1]);
    }
  }

  lemma {:induction false} ValueAtLeast(s: string)
    requires AllDigits(s) && s != "" && s[0] != '0'
    ensures Value(s) >= Pow10(|s| - 1)
  {
    if |s| == 1 {
      assert s[..0] == "";
    } else {
      ValueAtLeast(s[..|s| - 1]);
    }
  }

  lemma {:induction false} Pow10Grows(j: nat, k: nat)
    requires j <= k
    ensures Pow10(j) <= Pow10(k)
    decreases k
  {
    if j < k {
      Pow10Grows(j, k - 1);
    }
  }

  lemma Pow10Of4()
    ensures Pow10(4) == 10000
  {
    assert Pow10(1) == 10 && Pow10(2) == 100 && Pow10(3) == 1000;
  }

  /** How many digits a number takes. */
  lemma DecimalLength(n: nat, k: nat)
    requires 0 < n
    ensures n < Pow10(k) <==> |Decimal(n)| <= k
  {
    DecimalHasValue(n);
    var s := Decimal(n);
    DecimalHasNoLeadingZero(n);
    ValueBelow(s);
    ValueAtLeast(s);
    if |s| <= k {
      Pow10Grows(|s|, k);
    } else {
      Pow10Grows(k, |s| - 1);
    }
  }

  lemma {:induction false} DecimalHasNoLeadingZero(n: nat)
    requires 0 < n
    ensures Decimal(n) != "" && Decimal(n)[0] != '0'
  {
    if n >= 10 {
      DecimalHasNoLeadingZero(n / 10);
    }
  }

  // ---------------------------------------------------------------- round trips

  lemma FormatHasValue(n: nat)
    ensures Format(n) != "" && AllDigits(Format(n)) && Value(Format(n)) == n
  {
    DecimalHasValue(n);
    if n < 10000 && |Decimal(n)| < 4 {
      ValueDropsZeros(4 - |Decimal(n)|, Decimal(n));
    }
  }

  /** Parsing undoes formatting on every sequence a `NonZeroU64` can hold. */
  lemma ParseFormat(n: nat)
    requires 0 < n <= U64_MAX
    ensures Parse(Format(n)) == Some(n)
  {
    FormatHasValue(n);
  }

  /** Four digits that are not all zero, or more digits without a leading zero. */
  predicate Canonical(text: string) {
    && AllDigits(text) && |text| >= 4
    && (if |text| == 4 then text != "0000" else text[0] != '0')
    && Value(text) <= U64_MAX
  }

  lemma CanonicalIsFormatted(text: string)
    requires Canonical(text)
    ensures 0 < Value(text) && Format(Value(text)) == text
  {
    Pow10Of4();
    ValueBelow(text);
    if |text| == 4 {
      if Value(text) == 0 {
        ZeroDigits(text);
        assert false;
      }
      DigitsArePadded(text);
      assert Zeros(0) + text == text;
    } else {
      DecimalOfValue(text);
      ValueAtLeast(text);
      Pow10Grows(4, |text| - 1);
    }
  }

  lemma {:induction false} ZeroDigits(s: string)
    requires AllDigits(s) && Value(s) == 0
    ensures s == Zeros(|s|)
  {
    if s != "" {
      ZeroDigits(s[..|s| - 1]);
      assert s == s[..|s| - 1] + [s[|s| - 1]];
    }
  }

  lemma FormatIsCanonical(n: nat)
    requires 0 < n <= U64_MAX
    ensures Canonical(Format(n))
  {
    FormatHasValue(n);
    Pow10Of4();
    DecimalLength(n, 4);
    DecimalHasNoLeadingZero(n);
    assert n < 10000 ==> |Format(n)| == 4;
    assert Value("0000") == 0 by {
      ValueDropsZeros(4, "");
      assert Zeros(4) + "" == "0000";
    }
  }

  /** What parsing accepts, and that formatting undoes it. */
  lemma ParseAcceptsCanonical(text: string)
    ensures Parse(text).Some? <==> Canonical(text)
    ensures Parse(text).Some? ==> 0 < Parse(text).value <= U64_MAX && Format(Parse(text).value) == text
  {
    if Canonical(text) {
      CanonicalIsFormatted(text);
    }
    if Parse(text).Some? {
      FormatIsCanonical(Parse(text).value);
    }
  }

  lemma FormatIsShort(n: nat)
    requires 0 < n <= U64_MAX
    ensures 4 <= |Format(n)| <= 20
  {
    assert n < Pow10(20) by {
      assert Pow10(5) == 100000 by { Pow10Of4(); }
      assert Pow10(10) == 10000000000 by { assert Pow10(6) == 1000000 && Pow10(8) == 100000000; }
      assert Pow10(15) == 1000000000000000 by { assert Pow10(12) == 1000000000000 && Pow10(14) == 100000000000000; }
      assert Pow10(20) == 100000000000000000000 by {
        assert Pow10(17) == 100000000000000000 && Pow10(19) == 10000000000000000000;
      }
    }
    DecimalLength(n, 20);
    FormatIsCanonical(n);
  }

  // ---------------------------------------------------------------- knowledge ids

  datatype Kind = Fact | Rumor | Memory

  function KindPrefix(kind: Kind): string {
    match kind
    case Fact => "fact_"
    case Rumor => "rumor_"
    case Memory => "memory_"
  }

  datatype SourceId = SourceId(kind: Kind, sequence: nat)
  {
    predicate Valid() {
      0 < sequence <= I64_MAX
    }

    function Text(): string {
      KindPrefix(kind) + Format(sequence)
    }
  }

  function StripPrefix(text: string, prefix: string): Option<string> {
    if prefix <= text then Some(text[|prefix|..]) else None
  }

  /** `try_new` of a knowledge id of the given kind. */
  function TrySourceId(kind: Kind, text: string): Option<SourceId> {
    match StripPrefix(text, KindPrefix(kind))
    case None => None
    case Some(rest) =>
      match Parse(rest)
      case None => None
      case Some(n) => if n > I64_MAX then None else Some(SourceId(kind, n))
  }

  /** Ids and their texts correspond one to one: `try_new` accepts exactly the texts of valid ids. */
  lemma SourceIdRoundTrip(kind: Kind, text: string, id: SourceId)
    ensures TrySourceId(kind, text) == Some(id) <==> id.kind == kind && id.Valid() && id.Text() == text
  {
    var prefix := KindPrefix(kind);
    if prefix <= text {
      assert text == prefix + text[|prefix|..];
      ParseAcceptsCanonical(text[|prefix|..]);
    }
    if id.kind == kind && id.Valid() && id.Text() == text {
      ParseFormat(id.sequence);
      assert text[|prefix|..] == Format(id.sequence);
    }
  }

  /** Two valid ids with the same text are the same id, whatever their kinds. */
  lemma TextIsInjective(a: SourceId, b: SourceId)
    requires a.Valid() && b.Valid() && a.Text() == b.Text()
    ensures a == b
  {
    assert a.Text()[0] == KindPrefix(a.kind)[0] && b.Text()[0] == KindPrefix(b.kind)[0];
    SourceIdRoundTrip(a.kind, a.Text(), a);
    SourceIdRoundTrip(a.kind, a.Text(), b);
  }
}
