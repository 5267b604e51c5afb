/** What a request declares about its entity body (GetEntityBodyInfo), and the
    decimal text of a Content-Length (section 8.6 of RFC 9110). */
module ContentLength {
  import opened Common

  const MAX_ULONGLONG: nat := QWORD_MODULUS - 1

  /** The 32-byte copy buffer keeps this many characters and a terminator. */
  const KEPT_CHARS: nat := 31

  predicate IsDigit(c: char) {
    '0' <= c <= '9'
  }

  function DigitValue(c: char): (d: nat)
    requires IsDigit(c)
    ensures d < 10
  {
    c as int - '0' as int
  }

  function DigitChar(d: nat): (c: char)
    requires d < 10
    ensures IsDigit(c) && DigitValue(c) == d
  {
    (d + '0' as int) as char
  }

  predicate AllDigits(text: string) {
    forall i :: 0 <= i < |text| ==> IsDigit(text[i])
  }

  /** The number a digit string denotes. */
  function Value(text: string): nat
    requires AllDigits(text)
  {
    if text == "" then 0
    else 10 * Value(text[..|text| - 1]) + DigitValue(text[|text| - 1])
  }

  /** The shortest decimal text of a number. */
  function Decimal(n: nat): (text: string)
    ensures AllDigits(text) && text != ""
  {
    if n < 10 then [DigitChar(n)] else Decimal(n / 10) + [DigitChar(n % 10)]
  }

  /** The declared length a Content-Length text stands for: 1*DIGIT denoting a
      64-bit number, where zero declares no body. */
  function DeclaredLength(text: string): Option<nat> {
    if text != "" && AllDigits(text) && 1 <= Value(text) <= MAX_ULONGLONG
    then Some(Value(text)) else None
  }

  // ---- std::from_chars for unsigned long long, base 10 ----

  datatype ParseResult =
    | Parsed(value: nat, consumed: nat)
    | InvalidArgument
    | OutOfRange(consumed: nat)

  /** Length of the longest digit prefix. */
  function DigitRun(text: string): (k: nat)
    ensures k <= |text| && AllDigits(text[..k])
    ensures k < |text| ==> !IsDigit(text[k])
  {
    if text == "" || !IsDigit(text[0]) then 0 else 1 + DigitRun(text[1..])
  }

  lemma DigitRunUnique(text: string, k: nat)
    requires k <= |text| && AllDigits(text[..k])
    requires k < |text| ==> !IsDigit(text[k])
    ensures DigitRun(text) == k
  {
    assert forall j :: 0 <= j < k ==> IsDigit(text[..k][j]) && IsDigit(text[j]);
    assert forall j :: 0 <= j < DigitRun(text) ==> IsDigit(text[..DigitRun(text)][j]) && IsDigit(text[j]);
  }

  method FromChars(text: string) returns (r: ParseResult)
    ensures var k := DigitRun(text);
            r == if k == 0 then InvalidArgument
                 else if Value(text[..k]) <= MAX_ULONGLONG then Parsed(Value(text[..k]), k)
                 else OutOfRange(k)
  {
    var i, x, overflow := 0, 0, false;
    while i < |text| && IsDigit(text[i])
      invariant 0 <= i <= |text| && AllDigits(text[..i])
      invariant overflow <==> Value(text[..i]) > MAX_ULONGLONG
      invariant !overflow ==> x == Value(text[..i])
    {
      assert text[..i + 1][..i] == text[..i];
      var next := 10 * x + DigitValue(text[i]);
      if overflow || next > MAX_ULONGLONG {
        overflow := true;
      } else {
        x := next;
      }
      i := i + 1;
    }
    DigitRunUnique(text, i);
    if i == 0 {
      return InvalidArgument;
    } else if overflow {
      return OutOfRange(i);
    } else {
      return Parsed(x, i);
    }
  }

  // ---- GetEntityBodyInfo ----

  /** The parts of an HTTP_REQUEST the function reads. */
  datatype RawRequest = RawRequest(moreEntityBody: bool, contentLength: Option<string>)

  datatype EntityBodyInfo = EntityBodyInfo(hasBody: bool, length: nat)

  const NO_BODY := EntityBodyInfo(false, 0)

  function Kept(text: string): string {
    if |text| > KEPT_CHARS then text[..KEPT_CHARS] else text
  }

  /** What a declared length means for the reader. */
  function InfoOf(declared: Option<nat>): EntityBodyInfo {
    match declared
    case None => NO_BODY
    case Some(n) => EntityBodyInfo(true, n)
  }

  /** What a request says about its body. */
  function Announced(req: Option<RawRequest>): EntityBodyInfo {
    if req.None? then NO_BODY
    else if req.value.moreEntityBody then EntityBodyInfo(true, 0)
    else if req.value.contentLength.None? then NO_BODY
    else InfoOf(DeclaredLength(Kept(req.value.contentLength.value)))
  }

  method GetEntityBodyInfo(req: Option<RawRequest>) returns (info: EntityBodyInfo)
    ensures info == Announced(req)
    ensures req.None? ==> info == NO_BODY
    ensures req.Some? && req.value.moreEntityBody ==> info == EntityBodyInfo(true, 0)
    ensures req.Some? && !req.value.moreEntityBody && req.value.contentLength.None? ==> info == NO_BODY
    ensures req.Some? && !req.value.moreEntityBody && req.value.contentLength.Some? ==>
              info == InfoOf(DeclaredLength(Kept(req.value.contentLength.value)))
  {
    info := NO_BODY;
    if req.None? {
      return;
    }
    if req.value.moreEntityBody {
      info := info.(hasBody := true);
      return;
    }
    if req.value.contentLength.None? || |req.value.contentLength.value| == 0 {
      return;
    }
    var raw := req.value.contentLength.value;
    var n := |raw|;
    if n >= KEPT_CHARS + 1 {
      n := KEPT_CHARS;
    }
    var tmp := raw[..n];
    assert tmp == Kept(raw);
    var res := FromChars(tmp);
    if AllDigits(tmp) {
      DigitRunUnique(tmp, n);
      assert tmp[..n] == tmp;
    }
    if res.Parsed? && res.consumed == n && res.value > 0 {
      assert tmp[..n] == tmp;
      info := EntityBodyInfo(true, res.value);
    }
  }

  // ---- GetMaxInspectBodyBytes ----

  const DEFAULT_CAP: nat := 1024 * 1024

  /** The inspection cap, from the value of its environment variable if it is set. */
  method GetMaxInspectBodyBytes(setting: Option<string>) returns (cap: nat)
    ensures 1 <= cap <= 0xFFFF_FFFF
    ensures cap == if setting.Some? && |setting.value| <= 31 && DeclaredLength(setting.value).Some?
                   then Min(DeclaredLength(setting.value).value, 0xFFFF_FFFF) else 1048576
  {
    cap := DEFAULT_CAP;
    if setting.Some? && 0 < |setting.value| < KEPT_CHARS + 1 {
      var text := setting.value;
      var res := FromChars(text);
      assert text[..|text|] == text;
      if AllDigits(text) {
        DigitRunUnique(text, |text|);
      }
      if res.Parsed? && res.consumed == |text| && res.value > 0 {
        cap := res.value;
      }
    }
    if cap > DWORD_MODULUS - 1 {
      cap := DWORD_MODULUS - 1;
    }
  }

  // ---- Properties ----

  lemma {:induction false} ValueOfDecimal(n: nat)
    ensures Value(Decimal(n)) == n
  {
    if n >= 10 {
      ValueOfDecimal(n / 10);
      assert Decimal(n)[..|Decimal(n)| - 1] == Decimal(n / 10);
    } else {
      assert Decimal(n)[..0] == "";
    }
  }

  /** Numbers below 10^k print in at most k digits. */
  lemma {:induction false} DecimalIsShort(n: nat, k: nat, bound: nat)
    requires k >= 1 && n < bound && bound == Power10(k)
    ensures |Decimal(n)| <= k
  {
    if n >= 10 {
      assert k > 1;
      assert n / 10 < Power10(k - 1);
      DecimalIsShort(n / 10, k - 1, Power10(k - 1));
    }
  }

  function Power10(k: nat): nat {
    if k == 0 then 1 else 10 * Power10(k - 1)
  }

  lemma TwentyDigits()
    ensures MAX_ULONGLONG < Power10(20)
  {
    assert Power10(5) == 100000;
    assert Power10(10) == 10000000000;
    assert Power10(15) == 1000000000000000;
  }

  /** GetEntityBodyInfo undoes decimal printing of every length 1 .. 2^64-1. */
  lemma PrintedLengthIsReported(n: nat)
    requires 1 <= n <= 0xFFFF_FFFF_FFFF_FFFF
    ensures Kept(Decimal(n)) == Decimal(n)
    ensures DeclaredLength(Kept(Decimal(n))) == Some(n)
  {
    ValueOfDecimal(n);
    TwentyDigits();
    DecimalIsShort(n, 20, Power10(20));
  }

  function Zeros(k: nat): string {
    seq(k, i => '0')
  }

  lemma DecimalSnoc(v: nat, d: nat)
    requires v > 0 && d < 10
    ensures Decimal(10 * v + d) == Decimal(v) + [DigitChar(d)]
  {
    assert (10 * v + d) / 10 == v && (10 * v + d) % 10 == d;
  }

  /** The accepted texts are exactly the printed numbers with leading zeros. */
  lemma {:induction false} DigitsArePrintedNumber(text: string)
    requires text != "" && AllDigits(text)
    ensures exists k: nat :: text == Zeros(k) + Decimal(Value(text))
  {
    var front := text[..|text| - 1];
    var d := DigitValue(text[|text| - 1]);
    if front == "" {
      assert text == Zeros(0) + Decimal(Value(text));
    } else {
      DigitsArePrintedNumber(front);
      var k: nat :| front == Zeros(k) + Decimal(Value(front));
      var zeros := if Value(front) == 0 then k + 1 else k;
      OneDigitMore(k, Value(front), d);
      assert text == front + [DigitChar(d)];
      assert text == Zeros(zeros) + Decimal(Value(text));
    }
  }

  lemma OneDigitMore(k: nat, v: nat, d: nat)
    requires d < 10
    ensures Zeros(k) + Decimal(v) + [DigitChar(d)] == Zeros(if v == 0 then k + 1 else k) + Decimal(10 * v + d)
  {
    if v == 0 {
      assert Decimal(0) == "0" && Decimal(d) == [DigitChar(d)];
      assert Zeros(k + 1) == Zeros(k) + "0";
    } else {
      DecimalSnoc(v, d);
    }
  }

  lemma {:induction false} ValueOfZeros(k: nat, text: string)
    requires AllDigits(text)
    ensures AllDigits(Zeros(k) + text) && Value(Zeros(k) + text) == Value(text)
  {
    if text == "" {
      assert Zeros(k) + text == Zeros(k);
      if k > 0 {
        ValueOfZeros(k - 1, "");
        assert Zeros(k)[..k - 1] == Zeros(k - 1) == Zeros(k - 1) + "";
      }
    } else {
      var front := text[..|text| - 1];
      ValueOfZeros(k, front);
      assert (Zeros(k) + text)[..k + |text| - 1] == Zeros(k) + front;
    }
  }

  lemma DeclaredExactlyPrintedNumbers(text: string, n: nat)
    ensures DeclaredLength(text) == Some(n) <==>
              1 <= n <= 0xFFFF_FFFF_FFFF_FFFF && exists k: nat :: text == Zeros(k) + Decimal(n)
  {
    if DeclaredLength(text) == Some(n) {
      DigitsArePrintedNumber(text);
    }
    if 1 <= n <= MAX_ULONGLONG && exists k: nat :: text == Zeros(k) + Decimal(n) {
      var k: nat :| text == Zeros(k) + Decimal(n);
      ValueOfZeros(k, Decimal(n));
      ValueOfDecimal(n);
    }
  }

  /** More digits never denote a smaller number, and a larger one once the
      shorter text is positive. */
  lemma {:induction false} ValueGrows(text: string, k: nat)
    requires AllDigits(text) && k <= |text|
    ensures AllDigits(text[..k]) && Value(text[..k]) <= Value(text)
    ensures k < |text| && Value(text[..k]) > 0 ==> Value(text[..k]) < Value(text)
  {
    if k == |text| {
      assert text[..k] == text;
    } else {
      var front := text[..|text| - 1];
      ValueGrows(front, k);
      assert front[..k] == text[..k];
    }
  }

  /** A prefix that denotes zero adds nothing. */
  lemma {:induction false} ZeroPrefix(text: string, k: nat)
    requires AllDigits(text) && k <= |text| && AllDigits(text[..k]) && Value(text[..k]) == 0
    ensures Value(text) == Value(text[k..])
  {
    if k == |text| {
      assert text[..k] == text;
    } else {
      var front := text[..|text| - 1];
      assert front[..k] == text[..k];
      ZeroPrefix(front, k);
      assert text[k..][..|text| - k - 1] == front[k..];
    }
  }

  /** Only the first 31 characters are looked at, and the rest changes what a long text
      declares exactly when those 31 are digits and either denote a length that can be
      reported, or zero with a length that can be reported behind it. */
  predicate MisreadsLongText(text: string) {
    && |text| > 31
    && var head, tail := text[..31], text[31..];
    && AllDigits(head)
    && (|| 1 <= Value(head) <= 0xFFFF_FFFF_FFFF_FFFF
        || (Value(head) == 0 && AllDigits(tail) && 1 <= Value(tail) <= 0xFFFF_FFFF_FFFF_FFFF))
  }

  /** The declared length is reported for every text but those. */
  lemma LongTextsAreMisreadIff(text: string)
    ensures DeclaredLength(Kept(text)) != DeclaredLength(text) <==> MisreadsLongText(text)
  {
    if |text| > KEPT_CHARS && AllDigits(text[..KEPT_CHARS]) {
      var head, tail := text[..KEPT_CHARS], text[KEPT_CHARS..];
      assert head + tail == text;
      assert AllDigits(text) <==> AllDigits(tail);
      if AllDigits(tail) {
        ValueGrows(text, KEPT_CHARS);
        if Value(head) == 0 {
          ZeroPrefix(text, KEPT_CHARS);
        }
      }
    }
  }

  /** A 32-character text for which the report is wrong. */
  lemma LongTextCounterexample()
    ensures var text := Zeros(30) + "10";
            DeclaredLength(text) == Some(10) && DeclaredLength(Kept(text)) == Some(1)
  {
    var text := Zeros(30) + Decimal(10);
    ValueOfZeros(30, Decimal(10));
    ValueOfDecimal(10);
    assert Decimal(10) == Decimal(1) + [DigitChar(0)] == "10";
    assert Kept(text) == Zeros(30) + Decimal(1);
    ValueOfZeros(30, Decimal(1));
    ValueOfDecimal(1);
  }
}
