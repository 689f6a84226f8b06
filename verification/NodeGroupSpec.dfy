/** Node group specifications, written `<minSize>:<maxSize>:<name>`. */
module NodeGroupSpecs {
  import opened Wrappers

  datatype NodeGroupSpec = NodeGroupSpec(name: string, minSize: int, maxSize: int, supportScaleToZero: bool)

  datatype SpecError = WrongConfiguration | BadMinSize | BadMaxSize | InvalidSpec

  // ----- Decimal numbers -----

  const MAX_INT: int := 0x7fff_ffff_ffff_ffff
  const MIN_INT: int := -0x8000_0000_0000_0000

  predicate IsDigit(c: char) {
    '0' <= c <= '9'
  }

  predicate AllDigits(s: string) {
    forall i :: 0 <= i < |s| ==> IsDigit(s[i])
  }

  function DigitValue(c: char): int {
    c as int - '0' as int
  }

  function DigitChar(d: nat): (c: char)
    requires d < 10
    ensures IsDigit(c) && DigitValue(c) == d
  {
    ('0' as int + d) as char
  }

  function NumberOf(digits: string): int {
    if digits == "" then 0 else 10 * NumberOf(digits[..|digits| - 1]) + DigitValue(digits[|digits| - 1])
  }

  /** strconv.Atoi: an optional sign, at least one digit, and a value that fits a 64-bit integer. */
  function Atoi(s: string): Option<int> {
    var signed := s != "" && (s[0] == '-' || s[0] == '+');
    var digits := if signed then s[1..] else s;
    if digits == "" || !AllDigits(digits) then None
    else
      var n := if signed && s[0] == '-' then -NumberOf(digits) else NumberOf(digits);
      if MIN_INT <= n <= MAX_INT then Some(n) else None
  }

  function Decimal(n: nat): string {
    if n < 10 then [DigitChar(n)] else Decimal(n / 10) + [DigitChar(n % 10)]
  }

  /** The %d verb. */
  function Itoa(n: int): string {
    if n < 0 then "-" + Decimal(-n) else Decimal(n)
  }

  lemma {:induction false} DecimalReadsBack(n: nat)
    ensures Decimal(n) != "" && AllDigits(Decimal(n)) && NumberOf(Decimal(n)) == n
  {
    var front := Decimal(n / 10);
    if n >= 10 {
      DecimalReadsBack(n / 10);
      assert (front + [DigitChar(n % 10)])[..|front|] == front;
    } else {
      assert [DigitChar(n)][..0] == "";
    }
  }

  lemma UnsignedReadsBack(digits: string)
    requires digits != "" && AllDigits(digits) && NumberOf(digits) <= MAX_INT && 0 <= NumberOf(digits)
    ensures Atoi(digits) == Some(NumberOf(digits))
  {
    assert IsDigit(digits[0]);
  }

  lemma NegativeReadsBack(digits: string)
    requires digits != "" && AllDigits(digits) && MIN_INT <= -NumberOf(digits) <= MAX_INT
    ensures Atoi("-" + digits) == Some(-NumberOf(digits))
  {
    assert ("-" + digits)[1..] == digits;
  }

  lemma ItoaReadsBack(n: int)
    requires MIN_INT <= n <= MAX_INT
    ensures Atoi(Itoa(n)) == Some(n)
    ensures ':' !in Itoa(n)
  {
    if n < 0 {
      DecimalReadsBack(-n);
      NegativeReadsBack(Decimal(-n));
    } else {
      DecimalReadsBack(n);
      UnsignedReadsBack(Decimal(n));
    }
  }

  // ----- Splitting at colons -----

  /** Cuts a string at its first colon. */
  function Cut(s: string): Option<(string, string)> {
    if s == "" then None
    else if s[0] == ':' then Some(("", s[1..]))
    else
      match Cut(s[1..])
      case Some((head, tail)) => Some(([s[0]] + head, tail))
      case None => None
  }

  lemma {:induction false} CutIff(s: string, head: string, tail: string)
    ensures Cut(s) == Some((head, tail)) <==> s == head + ":" + tail && ':' !in head
  {
    if s == "" {
      assert |head + ":" + tail| > 0;
    } else if s[0] == ':' {
      if head == "" {
        assert (head + ":" + tail)[1..] == tail;
      } else {
        assert (head + ":" + tail)[0] == head[0];
      }
      assert s == "" + ":" + s[1..];
    } else {
      if head != "" {
        CutIff(s[1..], head[1..], tail);
        assert head == [head[0]] + head[1..];
        assert s == [s[0]] + s[1..];
        if s == head + ":" + tail && ':' !in head {
          assert s[1..] == head[1..] + ":" + tail;
          assert s[0] == head[0];
        }
        if Cut(s) == Some((head, tail)) {
          assert Cut(s[1..]) == Some((head[1..], tail));
          assert s == head + ":" + tail;
          assert ':' !in head;
        }
      } else {
        assert (head + ":" + tail)[0] == ':';
      }
    }
  }

  /** strings.SplitN(value, ":", 3), when that yields three tokens. */
  function SplitInThree(value: string): Option<(string, string, string)> {
    match Cut(value)
    case None => None
    case Some((first, rest)) =>
      match Cut(rest)
      case None => None
      case Some((second, third)) => Some((first, second, third))
  }

  lemma SplitInThreeIff(value: string, a: string, b: string, c: string)
    ensures SplitInThree(value) == Some((a, b, c)) <==> value == a + ":" + b + ":" + c && ':' !in a && ':' !in b
  {
    CutIff(value, a, b + ":" + c);
    CutIff(b + ":" + c, b, c);
    assert a + ":" + (b + ":" + c) == a + ":" + b + ":" + c;
    if SplitInThree(value) == Some((a, b, c)) {
      var rest := Cut(value).value.1;
      CutIff(rest, b, c);
      CutIff(value, a, rest);
    }
  }

  // ----- Parsing and printing -----

  predicate IsValid(s: NodeGroupSpec) {
    && (if s.supportScaleToZero then 0 <= s.minSize else 1 <= s.minSize)
    && s.minSize <= s.maxSize
    && s.name != ""
  }

  function SpecFromString(value: string, supportScaleToZero: bool): Result<NodeGroupSpec, SpecError> {
    match SplitInThree(value)
    case None => Err(WrongConfiguration)
    case Some((minSize, maxSize, name)) =>
      if Atoi(minSize).None? then Err(BadMinSize)
      else if Atoi(maxSize).None? then Err(BadMaxSize)
      else
        var spec := NodeGroupSpec(name, Atoi(minSize).value, Atoi(maxSize).value, supportScaleToZero);
        if IsValid(spec) then Ok(spec) else Err(InvalidSpec)
  }

  function ToString(s: NodeGroupSpec): string {
    Itoa(s.minSize) + ":" + Itoa(s.maxSize) + ":" + s.name
  }

  /** Exactly which strings are accepted, and as what. */
  lemma AcceptedIff(value: string, zero: bool, spec: NodeGroupSpec)
    ensures SpecFromString(value, zero) == Ok(spec) <==>
            && IsValid(spec) && spec.supportScaleToZero == zero
            && exists a, b :: && value == a + ":" + b + ":" + spec.name && ':' !in a && ':' !in b
                              && Atoi(a) == Some(spec.minSize) && Atoi(b) == Some(spec.maxSize)
  {
    if SpecFromString(value, zero) == Ok(spec) {
      var (a, b, c) := SplitInThree(value).value;
      SplitInThreeIff(value, a, b, c);
    }
    if a, b :| && value == a + ":" + b + ":" + spec.name && ':' !in a && ':' !in b
               && Atoi(a) == Some(spec.minSize) && Atoi(b) == Some(spec.maxSize) {
      SplitInThreeIff(value, a, b, spec.name);
    }
  }

  /** Parsing undoes printing on every valid specification, whatever its name contains. */
  lemma ParsingUndoesPrinting(spec: NodeGroupSpec)
    requires IsValid(spec) && spec.minSize <= MAX_INT && spec.maxSize <= MAX_INT
    ensures SpecFromString(ToString(spec), spec.supportScaleToZero) == Ok(spec)
  {
    ItoaReadsBack(spec.minSize);
    ItoaReadsBack(spec.maxSize);
    SplitInThreeIff(ToString(spec), Itoa(spec.minSize), Itoa(spec.maxSize), spec.name);
  }

  /** Printing an accepted specification gives a canonical form of it that is accepted as the same. */
  lemma PrintingIsCanonical(value: string, zero: bool)
    requires SpecFromString(value, zero).Ok?
    ensures SpecFromString(ToString(SpecFromString(value, zero).value), zero) == SpecFromString(value, zero)
  {
    ParsingUndoesPrinting(SpecFromString(value, zero).value);
  }
}
