/** `saveResponse` (autosave of a batch of answers) and
    `getResponsesByAssessment`. The per-entry comment rule and the derived
    fields are pure; the batch is a loop of upserts into the `Response`
    collection. */
module ResponseController {
  import opened Common
  import opened ResponseModel
  import opened Store

  /** One element of the `responses` array of the request body. `answer` is
      `None` when the property is undefined. */
  datatype Entry = Entry(
    assessmentId: Field,
    questionId: Field,
    questionCode: Field,
    answer: Option<Answer>,
    comment: Field)

  // ---------------------------------------------------------------------
  // JavaScript's comparison of an answer with the number 3

  /** A JavaScript number as far as comparisons see it. */
  datatype JsNum = NaN | Finite(v: real) | PosInf | NegInf

  /** The value of a digit in bases up to 16; any other character is too
      large for every base. */
  function DigitValue(c: char): nat {
    if '0' <= c <= '9' then c as nat - '0' as nat
    else if 'a' <= c <= 'f' then c as nat - 'a' as nat + 10
    else if 'A' <= c <= 'F' then c as nat - 'A' as nat + 10
    else 16
  }

  predicate InBase(s: string, base: nat) {
    forall i :: 0 <= i < |s| ==> DigitValue(s[i]) < base
  }

  /** The value of a run of digits, most significant first. */
  function DigitsValue(s: string, base: nat): nat {
    if s == [] then 0
    else DigitsValue(s[..|s| - 1], base) * base + DigitValue(s[|s| - 1])
  }

  function Pow10(n: nat): (r: nat)
    ensures r > 0
  {
    if n == 0 then 1 else 10 * Pow10(n - 1)
  }

  /** `m × 10^e`. */
  function Scaled(m: nat, e: int): real {
    if e >= 0 then (m * Pow10(e)) as real else m as real / Pow10(-e) as real
  }

  predicate IsPoint(c: char) {
    c == '.'
  }

  predicate IsExponentMark(c: char) {
    c == 'e' || c == 'E'
  }

  /** The digits before and after an optional decimal point, as their value
      and the number of fraction digits; at least one digit is needed. */
  function Mantissa(s: string): Option<(nat, nat)> {
    match FirstIndex(s, IsPoint)
    case None => if s != [] && InBase(s, 10) then Some((DigitsValue(s, 10), 0)) else None
    case Some(k) =>
      var whole, fraction := s[..k], s[k + 1..];
      if InBase(whole, 10) && InBase(fraction, 10) && |whole| + |fraction| > 0
      then Some((DigitsValue(whole + fraction, 10), |fraction|))
      else None
  }

  /** An exponent: digits with an optional sign. */
  function Exponent(s: string): Option<int> {
    if |s| > 1 && (s[0] == '+' || s[0] == '-') && InBase(s[1..], 10) then
      var e: int := DigitsValue(s[1..], 10);
      Some(if s[0] == '-' then -e else e)
    else if s != [] && InBase(s, 10) then Some(DigitsValue(s, 10))
    else None
  }

  /** An unsigned decimal literal other than `Infinity`: a mantissa and an
      optional exponent after `e` or `E`. */
  function UnsignedDecimal(s: string): Option<real> {
    match FirstIndex(s, IsExponentMark)
    case None =>
      (match Mantissa(s)
       case None => None
       case Some(m) => Some(Scaled(m.0, -(m.1 as int))))
    case Some(k) =>
      match (Mantissa(s[..k]), Exponent(s[k + 1..]))
      case (Some(m), Some(e)) => Some(Scaled(m.0, e - m.1))
      case _ => None
  }

  /** Digits after a `0x`, `0o` or `0b` prefix. */
  function Radix(s: string, base: nat): JsNum {
    if s != [] && InBase(s, base) then Finite(DigitsValue(s, base) as real) else NaN
  }

  /** `Number(s)`: surrounding white space is ignored and a blank string is
      0; then an unsigned hexadecimal, octal or binary integer, or an
      optionally signed decimal literal or `Infinity`; anything else is NaN.
      The rounding to a double is not applied. */
  function JsNumber(s: string): (r: JsNum)
    ensures IsBlank(s) ==> r == Finite(0.0)
  {
    NumberOf(Trim(s))
  }

  /** `Number` of a string with no white space at either end. */
  function NumberOf(t: string): JsNum {
    if t == "" then Finite(0.0)
    else if |t| > 2 && t[0] == '0' && (t[1] == 'x' || t[1] == 'X') then Radix(t[2..], 16)
    else if |t| > 2 && t[0] == '0' && (t[1] == 'o' || t[1] == 'O') then Radix(t[2..], 8)
    else if |t| > 2 && t[0] == '0' && (t[1] == 'b' || t[1] == 'B') then Radix(t[2..], 2)
    else
      var negative := t[0] == '-';
      var body := if t[0] == '-' || t[0] == '+' then t[1..] else t;
      if body == "Infinity" then (if negative then NegInf else PosInf)
      else match UnsignedDecimal(body)
        case None => NaN
        case Some(v) => Finite(if negative then -v else v)
  }

  /** A string with no white space at either end is read as it stands. */
  lemma Untrimmed(t: string)
    requires t != [] ==> !IsSpace(t[0]) && !IsSpace(t[|t| - 1])
    ensures JsNumber(t) == NumberOf(t)
  {
    TrimNoOp(t);
  }

  /** The number an answer turns into on the left of `<=` or `>`: a boolean
      is 0 or 1, null is 0, and a string is read by `Number`. */
  function Numeric(a: Answer): JsNum {
    match a
    case Num(n) => Finite(n)
    case Str(s) => JsNumber(s)
    case Bool(b) => Finite(if b then 1.0 else 0.0)
    case NullAnswer => Finite(0.0)
  }

  /** `answer <= 3`; false for NaN. */
  predicate AtMost3(a: Answer) {
    match Numeric(a)
    case Finite(v) => v <= 3.0
    case NegInf => true
    case _ => false
  }

  /** `answer > 3`; false for NaN. */
  predicate Above3(a: Answer) {
    match Numeric(a)
    case Finite(v) => v > 3.0
    case PosInf => true
    case _ => false
  }

  // Reading decimal literals back

  /** The decimal spelling of a natural number. */
  function DecimalString(n: nat): (s: string)
    ensures s != [] && InBase(s, 10)
    ensures |s| > 1 ==> s[0] != '0'
  {
    if n < 10 then ['0' + n as char]
    else DecimalString(n / 10) + ['0' + (n % 10) as char]
  }

  lemma {:induction false} DecimalStringValue(n: nat)
    ensures DigitsValue(DecimalString(n), 10) == n
  {
    if n >= 10 {
      var s := DecimalString(n);
      DecimalStringValue(n / 10);
      assert s[..|s| - 1] == DecimalString(n / 10);
    }
  }

  /** A decimal digit is neither white space nor a sign, a point or an
      exponent mark. */
  lemma DigitsAreNotMarks(s: string)
    requires InBase(s, 10)
    ensures forall i :: 0 <= i < |s| ==>
      '0' <= s[i] <= '9' && !IsSpace(s[i]) && !IsPoint(s[i]) && !IsExponentMark(s[i])
  {
    forall i | 0 <= i < |s|
      ensures '0' <= s[i] <= '9'
    {
      assert DigitValue(s[i]) < 10;
    }
  }

  lemma MantissaWhole(w: string)
    requires w != [] && InBase(w, 10)
    ensures Mantissa(w) == Some((DigitsValue(w, 10), 0))
  {
    DigitsAreNotMarks(w);
    FirstIndexNone(w, IsPoint);
  }

  lemma MantissaPoint(w: string, f: string)
    requires InBase(w, 10) && InBase(f, 10) && |w| + |f| > 0
    ensures Mantissa(w + "." + f) == Some((DigitsValue(w + f, 10), |f|))
  {
    var s := w + "." + f;
    DigitsAreNotMarks(w);
    FirstIndexAt(s, IsPoint, |w|);
    assert s[..|w|] == w && s[|w| + 1..] == f;
  }

  /** Without an exponent mark, a decimal literal is its mantissa. */
  lemma NoExponent(s: string, m: nat, digits: nat)
    requires forall i :: 0 <= i < |s| ==> !IsExponentMark(s[i])
    requires Mantissa(s) == Some((m, digits))
    ensures UnsignedDecimal(s) == Some(Scaled(m, -(digits as int)))
  {
    FirstIndexNone(s, IsExponentMark);
  }

  lemma DecimalStringValueAsLiteral(n: nat)
    ensures UnsignedDecimal(DecimalString(n)) == Some(n as real)
  {
    var s := DecimalString(n);
    DecimalStringValue(n);
    DigitsAreNotMarks(s);
    MantissaWhole(s);
    NoExponent(s, n, 0);
  }

  /** `Number` reads back the decimal spelling of every natural number. */
  lemma DecimalRoundTrip(n: nat)
    ensures JsNumber(DecimalString(n)) == Finite(n as real)
  {
    var s := DecimalString(n);
    DecimalStringValueAsLiteral(n);
    DigitsAreNotMarks(s);
    UnsignedLiteral(s, n as real);
  }

  lemma ScaledTenth(n: nat)
    ensures Scaled(n * 10, -1) == n as real
  {
    assert Pow10(1) == 10;
  }

  /** White space around a literal does not change what `Number` reads. */
  lemma PaddedLiteral(u: string)
    requires u != [] && !IsSpace(u[0]) && !IsSpace(u[|u| - 1])
    ensures JsNumber(" " + u + " ") == JsNumber(u)
  {
    TrimPadded(' ', u, ' ');
    Untrimmed(u);
  }

  /** A minus sign in front of a decimal literal negates it. */
  lemma NegatedDecimal(body: string, v: real)
    requires body != [] && '0' <= body[0] <= '9' && !IsSpace(body[|body| - 1])
    requires UnsignedDecimal(body) == Some(v)
    ensures JsNumber("-" + body) == Finite(-v)
  {
    var u := "-" + body;
    Untrimmed(u);
    assert u[1..] == body;
    assert body != "Infinity";
  }

  /** The value of digits on either side of a point. */
  lemma FractionValue(w: string, f: string)
    requires InBase(w, 10) && InBase(f, 10) && |w| + |f| > 0
    ensures UnsignedDecimal(w + "." + f) == Some(Scaled(DigitsValue(w + f, 10), -(|f| as int)))
  {
    var body := w + "." + f;
    DigitsAreNotMarks(w);
    DigitsAreNotMarks(f);
    MantissaPoint(w, f);
    forall i | 0 <= i < |body| ensures !IsExponentMark(body[i]) {
      if i < |w| {
        assert body[i] == w[i];
      } else if i > |w| {
        assert body[i] == f[i - |w| - 1];
      }
    }
    NoExponent(body, DigitsValue(w + f, 10), |f|);
  }

  /** A zero fraction does not change the value. */
  lemma ZeroFractionValue(n: nat)
    ensures UnsignedDecimal(DecimalString(n) + ".0") == Some(n as real)
  {
    var s := DecimalString(n);
    assert s + ".0" == s + "." + "0";
    FractionValue(s, "0");
    DecimalStringValue(n);
    assert (s + "0")[..|s|] == s;
    assert DigitsValue(s + "0", 10) == n * 10;
    ScaledTenth(n);
  }

  /** ... and with a minus sign and a zero fraction. */
  lemma SignedFractionRoundTrip(n: nat)
    ensures JsNumber("-" + (DecimalString(n) + ".0")) == Finite(-(n as real))
  {
    var s := DecimalString(n);
    ZeroFractionValue(n);
    DigitsAreNotMarks(s);
    assert (s + ".0")[0] == s[0];
    NegatedDecimal(s + ".0", n as real);
  }

  /** An unsigned decimal literal is read as its value. */
  lemma UnsignedLiteral(body: string, v: real)
    requires body != [] && (('0' <= body[0] <= '9') || body[0] == '.')
    requires |body| > 1 ==> '0' <= body[1] <= '9' || IsPoint(body[1]) || IsExponentMark(body[1])
    requires !IsSpace(body[|body| - 1])
    requires UnsignedDecimal(body) == Some(v)
    ensures JsNumber(body) == Finite(v)
  {
    Untrimmed(body);
    assert body != "Infinity";
  }

  /** `Number` reads a decimal fraction, with digits on either side of the
      point or on one side only, as its exact value: "3.0" is 3, "3.5" is
      3.5 and ".5" is 0.5. */
  lemma DecimalFraction(w: string, f: string)
    requires InBase(w, 10) && InBase(f, 10) && |w| + |f| > 0
    ensures JsNumber(w + "." + f) == Finite(Scaled(DigitsValue(w + f, 10), -(|f| as int)))
  {
    FractionValue(w, f);
    FractionEnds(w, f);
    UnsignedLiteral(w + "." + f, Scaled(DigitsValue(w + f, 10), -(|f| as int)));
  }

  /** A decimal fraction starts with a digit or the point, goes on with one
      of them, and ends in one of them. */
  lemma FractionEnds(w: string, f: string)
    requires InBase(w, 10) && InBase(f, 10)
    ensures var body := w + "." + f;
      && (('0' <= body[0] <= '9') || body[0] == '.')
      && (|body| > 1 ==> '0' <= body[1] <= '9' || IsPoint(body[1]) || IsExponentMark(body[1]))
      && !IsSpace(body[|body| - 1])
  {
    var body := w + "." + f;
    DigitsAreNotMarks(w);
    DigitsAreNotMarks(f);
    if w != [] {
      assert body[0] == w[0];
    }
    if |w| > 1 {
      assert body[1] == w[1];
    } else if |w| == 0 && f != [] {
      assert body[1] == f[0];
    }
    if f != [] {
      assert body[|body| - 1] == f[|f| - 1];
    }
  }

  lemma ExponentOfNegative(x: string)
    requires x != [] && InBase(x, 10)
    ensures Exponent("-" + x) == Some(-(DigitsValue(x, 10) as int))
  {
    assert ("-" + x)[1..] == x;
  }

  /** The first exponent mark of `w + "e-" + x` is the `e`. */
  lemma ExponentMarkAt(w: string, x: string)
    requires InBase(w, 10)
    ensures var body := w + "e-" + x;
      FirstIndex(body, IsExponentMark) == Some(|w|) &&
      body[..|w|] == w && body[|w| + 1..] == "-" + x
  {
    var body := w + "e-" + x;
    DigitsAreNotMarks(w);
    FirstIndexAt(body, IsExponentMark, |w|);
    assert body[..|w|] == w;
    assert body[|w| + 1..] == "-" + x;
  }

  lemma NegativeExponentValue(w: string, x: string)
    requires w != [] && InBase(w, 10) && x != [] && InBase(x, 10)
    ensures UnsignedDecimal(w + "e-" + x) == Some(Scaled(DigitsValue(w, 10), -(DigitsValue(x, 10) as int)))
  {
    ExponentMarkAt(w, x);
    ExponentOfNegative(x);
    MantissaWhole(w);
  }

  /** A negative exponent divides by a power of ten: "25e-1" is 2.5. */
  lemma NegativeExponent(w: string, x: string)
    requires w != [] && InBase(w, 10) && x != [] && InBase(x, 10)
    ensures JsNumber(w + "e-" + x) == Finite(Scaled(DigitsValue(w, 10), -(DigitsValue(x, 10) as int)))
  {
    var body := w + "e-" + x;
    NegativeExponentValue(w, x);
    DigitsAreNotMarks(w);
    DigitsAreNotMarks(x);
    assert body[0] == w[0];
    if |body| > 1 {
      assert body[1] == if |w| > 1 then w[1] else 'e';
    }
    assert body[|body| - 1] == x[|x| - 1];
    UnsignedLiteral(body, Scaled(DigitsValue(w, 10), -(DigitsValue(x, 10) as int)));
  }

  /** A `0x`, `0o` or `0b` prefix selects the base of the digits after it:
      "0x3" and "0b11" are 3. */
  lemma PrefixedLiteral(t: string, base: nat)
    requires |t| > 2 && t[0] == '0' && !IsSpace(t[|t| - 1])
    requires (base == 16 && (t[1] == 'x' || t[1] == 'X')) ||
             (base == 8 && (t[1] == 'o' || t[1] == 'O')) ||
             (base == 2 && (t[1] == 'b' || t[1] == 'B'))
    ensures JsNumber(t) == Radix(t[2..], base)
  {
    Untrimmed(t);
  }

  lemma ReadsInfinity()
    ensures JsNumber("Infinity") == PosInf
  {
    Untrimmed("Infinity");
  }

  /** A mantissa cannot hold a letter such as the `x` of `0x`. */
  lemma NoMantissaAfterLead(m: string)
    requires |m| >= 2 && DigitValue(m[1]) >= 10 && !IsPoint(m[0]) && !IsPoint(m[1])
    ensures Mantissa(m) == None
  {
    match FirstIndex(m, IsPoint)
    case None =>
    case Some(k) =>
      assert k >= 2 && m[..k][1] == m[1];
  }

  /** A sign is not allowed before a hexadecimal integer: "-0x3" is NaN. */
  lemma SignedHexIsNaN(t: string)
    requires |t| > 3 && (t[0] == '-' || t[0] == '+') && t[1] == '0' && (t[2] == 'x' || t[2] == 'X')
    requires !IsSpace(t[|t| - 1])
    ensures JsNumber(t) == NaN
  {
    Untrimmed(t);
    var body := t[1..];
    assert body[0] == '0' && body != "Infinity";
    match FirstIndex(body, IsExponentMark)
    case None => NoMantissaAfterLead(body);
    case Some(k) =>
      assert k >= 2 && body[..k][1] == body[1];
      NoMantissaAfterLead(body[..k]);
  }

  /** Digits cannot start with a character that is neither a digit nor a
      point. */
  lemma NoMantissa(m: string)
    requires m != [] ==> DigitValue(m[0]) >= 10 && !IsPoint(m[0])
    ensures Mantissa(m) == None
  {
    if m != [] {
      match FirstIndex(m, IsPoint)
      case None =>
      case Some(k) =>
        assert k > 0 && m[..k][0] == m[0];
    }
  }

  /** A word that starts with a letter other than `I` reads as NaN. */
  lemma LetterIsNaN(t: string)
    requires t != [] && DigitValue(t[0]) >= 10 && !IsPoint(t[0])
    requires t[0] != '-' && t[0] != '+' && t[0] != 'I'
    requires !IsSpace(t[0]) && !IsSpace(t[|t| - 1])
    ensures JsNumber(t) == NaN
  {
    Untrimmed(t);
    assert t != "Infinity";
    match FirstIndex(t, IsExponentMark)
    case None => NoMantissa(t);
    case Some(k) =>
      assert k == 0 || t[..k][0] == t[0];
      NoMantissa(t[..k]);
  }

  lemma WordIsNaN()
    ensures JsNumber("three") == NaN
  {
    LetterIsNaN("three");
  }

  /** On a 1-5 scale question an answer that reads as a finite number is
      ruled by that number alone. */
  lemma ScaleByValue(q: Question, a: Answer, c: Field, v: real)
    requires IsScale(q) && Numeric(a) == Finite(v)
    ensures FinalComment(q, a, c).Err? <==> v <= 3.0 && CommentBlank(c)
    ensures v <= 3.0 && !CommentBlank(c) ==> FinalComment(q, a, c) == Ok(c)
    ensures v > 3.0 ==> FinalComment(q, a, c) == Ok(Null)
  {
  }

  /** On a 1-5 scale question a decimal fraction is ruled by its exact value:
      "3.0" is a low answer that needs a comment, "3.5" a high one whose
      comment is dropped. */
  lemma ScaleFractionAnswer(q: Question, w: string, f: string, c: Field)
    requires IsScale(q) && InBase(w, 10) && InBase(f, 10) && |w| + |f| > 0
    ensures var v := Scaled(DigitsValue(w + f, 10), -(|f| as int));
      && (FinalComment(q, Str(w + "." + f), c).Err? <==> v <= 3.0 && CommentBlank(c))
      && (v <= 3.0 && !CommentBlank(c) ==> FinalComment(q, Str(w + "." + f), c) == Ok(c))
      && (v > 3.0 ==> FinalComment(q, Str(w + "." + f), c) == Ok(Null))
  {
    DecimalFraction(w, f);
    ScaleByValue(q, Str(w + "." + f), c, Scaled(DigitsValue(w + f, 10), -(|f| as int)));
  }

  lemma BlankSamples()
    ensures CommentBlank(Text(" ")) && !CommentBlank(Text("ok"))
  {
    BlankIffAllSpace(" ");
    NotBlankAtStart("ok");
  }

  /** Numbers and booleans on a 1-5 scale question: `true` is 1 and so a
      low answer, `false` is 0, and 3.5 is a high answer. */
  lemma ScaleBooleanAnswers(q: Question)
    requires IsScale(q)
    ensures FinalComment(q, Bool(true), Text(" ")) == Err(BadRequest("Comment is required for answers <= 3"))
    ensures FinalComment(q, Bool(false), Text("ok")) == Ok(Text("ok"))
    ensures FinalComment(q, Num(3.5), Text("x")) == Ok(Null)
  {
    BlankSamples();
    ScaleByValue(q, Bool(true), Text(" "), 1.0);
    ScaleByValue(q, Bool(false), Text("ok"), 0.0);
    ScaleByValue(q, Num(3.5), Text("x"), 3.5);
  }

  /** On a 1-5 scale question an answer that reads as `Infinity` is high and
      loses its comment, and one that reads as NaN is neither low nor high
      and keeps it. */
  lemma ScaleByNonFinite(q: Question, a: Answer, c: Field)
    requires IsScale(q)
    ensures Numeric(a) == PosInf ==> FinalComment(q, a, c) == Ok(Null)
    ensures Numeric(a) == NegInf && CommentBlank(c) ==> FinalComment(q, a, c).Err?
    ensures Numeric(a) == NaN ==> FinalComment(q, a, c) == Ok(c)
  {
    match Numeric(a)
    case PosInf => assert !AtMost3(a) && Above3(a);
    case NegInf => assert AtMost3(a);
    case NaN => assert !AtMost3(a) && !Above3(a);
    case Finite(_) =>
  }

  /** Words on a 1-5 scale question: "Infinity" is a high answer and "three"
      is neither, so it needs no comment. */
  lemma ScaleWordAnswers(q: Question)
    requires IsScale(q)
    ensures FinalComment(q, Str("Infinity"), Text("x")) == Ok(Null)
    ensures FinalComment(q, Str("three"), Absent) == Ok(Absent)
  {
    ReadsInfinity();
    WordIsNaN();
    ScaleByNonFinite(q, Str("Infinity"), Text("x"));
    ScaleByNonFinite(q, Str("three"), Absent);
  }

  /** `answer === option`, where the option may be undefined or null. */
  predicate StrictEq(a: Answer, option: Field) {
    (a.Str? && option.Text? && a.s == option.text) || (a.NullAnswer? && option.Null?)
  }

  /** `!comment?.trim()`. */
  predicate CommentBlank(c: Field) {
    !c.Text? || IsBlank(c.text)
  }

  /** A value as a template literal prints it. */
  function Show(f: Field): string {
    match f
    case Absent => "undefined"
    case Null => "null"
    case Text(t) => t
  }

  predicate IsScale(q: Question) {
    q.scale == "SCALE_1_5" || q.questionType == "Calibration"
  }

  predicate IsForcedChoice(q: Question) {
    !IsScale(q) && q.scale == "FORCED_CHOICE"
  }

  // ---------------------------------------------------------------------
  // One entry

  /** The comment rule: the comment that will be stored, or the reason the
      entry is refused. */
  function FinalComment(q: Question, a: Answer, c: Field): (r: Result<Field>)
    ensures r.Ok? ==> r.value == c || r.value == Null
    ensures r.Err? ==> r.failure.BadRequest? && CommentBlank(c)
    ensures !IsScale(q) && q.scale != "FORCED_CHOICE" ==> r == Ok(c)
  {
    if IsScale(q) then
      if AtMost3(a) && CommentBlank(c) then Err(BadRequest("Comment is required for answers <= 3"))
      else if Above3(a) then Ok(Null)
      else Ok(c)
    else if q.scale == "FORCED_CHOICE" then
      if StrictEq(a, q.higherValueOption) && CommentBlank(c) then
        Err(BadRequest("Comment is required for higher value option (" + Show(q.higherValueOption) + ")"))
      else if !StrictEq(a, q.higherValueOption) then Ok(Null)
      else Ok(c)
    else Ok(c)
  }

  /** On a 1-5 scale or calibration question, a low answer needs a non-blank
      comment, which is then kept as given; a high answer loses its comment;
      an answer that is neither (a string that is not a number) keeps it. */
  lemma ScaleCommentRule(q: Question, a: Answer, c: Field)
    requires IsScale(q)
    ensures FinalComment(q, a, c).Err? <==> AtMost3(a) && CommentBlank(c)
    ensures AtMost3(a) && !CommentBlank(c) ==> FinalComment(q, a, c) == Ok(c)
    ensures Above3(a) ==> FinalComment(q, a, c) == Ok(Null)
    ensures !AtMost3(a) && !Above3(a) ==> FinalComment(q, a, c) == Ok(c)
  {
  }

  /** On a forced-choice question, choosing the higher-value option needs a
      non-blank comment, which is kept; any other choice loses its comment. */
  lemma ForcedChoiceCommentRule(q: Question, a: Answer, c: Field)
    requires IsForcedChoice(q)
    ensures FinalComment(q, a, c).Err? <==> StrictEq(a, q.higherValueOption) && CommentBlank(c)
    ensures StrictEq(a, q.higherValueOption) && !CommentBlank(c) ==> FinalComment(q, a, c) == Ok(c)
    ensures !StrictEq(a, q.higherValueOption) ==> FinalComment(q, a, c) == Ok(Null)
  {
  }

  /** The record `findOneAndUpdate` is given for an accepted entry: the
      question's metadata, the answer split by type, and the direction of a
      forced choice. */
  function Derive(assessmentId: Id, q: Question, a: Answer, comment: Field): (d: Response)
    ensures d.assessmentId == assessmentId && d.questionId == q.id && d.comment == comment
    ensures d.value.Some? <==> a.Num?
    ensures d.selectedOption.Some? <==> a.Str?
    ensures a.Num? ==> d.value == Some(a.n)
    ensures a.Str? ==> d.selectedOption == Some(a.s)
    ensures d.higherValueOption.Some? <==> Truthy(q.higherValueOption)
    ensures d.valueDirection.None? <==> !Truthy(q.higherValueOption)
    ensures d.valueDirection == Some(Higher) <==>
      Truthy(q.higherValueOption) && a == Str(q.higherValueOption.text)
  {
    var hv := q.higherValueOption;
    Response(
      assessmentId, q.id, q.questionCode, q.questionStem, q.stakeholder, q.domain,
      q.subdomain, q.questionType, q.scale,
      if a.Num? then Some(a.n) else None,
      if a.Str? then Some(a.s) else None,
      if Truthy(hv) then Some(hv.text) else None,
      if Truthy(hv) then (if a.Str? && a.s == hv.text then Some(Higher) else Some(Lower)) else None,
      comment, q.subdomainWeight)
  }

  /** `Question.findById(id)` for an id that casts to an ObjectId: the
      question whose `_id` is the cast id. */
  function FindQuestion(qs: seq<Question>, id: Id): (r: Option<Question>)
    ensures r.Some? ==> r.value.id == ObjectIdOf(id) && r.value in qs
    ensures r.None? ==> forall i :: 0 <= i < |qs| ==> qs[i].id != ObjectIdOf(id)
  {
    match FirstIndex(qs, (q: Question) => q.id == ObjectIdOf(id))
    case Some(k) => Some(qs[k])
    case None => None
  }

  /** Two entries are saved under the same key: their assessment ids and
      their question ids name the same ObjectIds. */
  predicate SameTarget(e: Entry, f: Entry) {
    && e.assessmentId.Text? && f.assessmentId.Text? && e.questionId.Text? && f.questionId.Text?
    && ObjectIdOf(e.assessmentId.text) == ObjectIdOf(f.assessmentId.text)
    && ObjectIdOf(e.questionId.text) == ObjectIdOf(f.questionId.text)
  }

  /** The checks and the derivation of one entry, in the order the handler
      makes them. A question id that is not an ObjectId makes `findById`
      throw, and an assessment id that is not one makes the upsert's cast
      throw; the catch block answers 500 for both. */
  function CheckEntry(e: Entry, qs: seq<Question>): (r: Result<Response>)
    ensures r.Ok? ==> Truthy(e.assessmentId) && Truthy(e.questionId) && e.answer.Some?
    ensures r.Ok? ==> IsHex24(e.assessmentId.text) && IsHex24(e.questionId.text)
    ensures r.Ok? ==> SameKey(r.value, ObjectIdOf(e.assessmentId.text), ObjectIdOf(e.questionId.text))
  {
    if !Truthy(e.assessmentId) || !Truthy(e.questionId) || !Truthy(e.questionCode) || e.answer.None? then
      Err(BadRequest("Invalid response data"))
    else if !IsHex24(e.questionId.text) then Err(ServerError("Error saving responses"))
    else match FindQuestion(qs, e.questionId.text)
      case None => Err(NotFound("Question not found"))
      case Some(q) =>
        match FinalComment(q, e.answer.value, e.comment)
        case Err(f) => Err(f)
        case Ok(c) =>
          if !IsHex24(e.assessmentId.text) then Err(ServerError("Error saving responses"))
          else Ok(Derive(ObjectIdOf(e.assessmentId.text), q, e.answer.value, c))
  }

  /** An entry is refused as invalid exactly when an id or the code is falsy
      or the answer is undefined; an answer of 0, "" or null passes. */
  lemma InvalidEntry(e: Entry, qs: seq<Question>)
    ensures CheckEntry(e, qs) == Err(BadRequest("Invalid response data")) <==>
      !Truthy(e.assessmentId) || !Truthy(e.questionId) || !Truthy(e.questionCode) || e.answer.None?
  {
  }

  /** A well-formed entry is answered with the catch block's 500, which
      also ends the batch, exactly when its question id is not an ObjectId,
      or when its assessment id is not one and the entry gets as far as the
      upsert: the question is found and the comment rule passes. */
  lemma MalformedIds(e: Entry, qs: seq<Question>)
    requires Truthy(e.assessmentId) && Truthy(e.questionId) && Truthy(e.questionCode) && e.answer.Some?
    ensures CheckEntry(e, qs) == Err(ServerError("Error saving responses")) <==>
      || !IsHex24(e.questionId.text)
      || (&& FindQuestion(qs, e.questionId.text).Some?
          && FinalComment(FindQuestion(qs, e.questionId.text).value, e.answer.value, e.comment).Ok?
          && !IsHex24(e.assessmentId.text))
  {
  }

  /** A well-formed entry with an ObjectId question id is refused as not
      found exactly when no question has that id, in any letter case. */
  lemma UnknownQuestion(e: Entry, qs: seq<Question>)
    requires Truthy(e.assessmentId) && Truthy(e.questionId) && Truthy(e.questionCode) && e.answer.Some?
    requires IsHex24(e.questionId.text)
    ensures CheckEntry(e, qs).Err? && CheckEntry(e, qs).failure.NotFound? <==>
      forall i :: 0 <= i < |qs| ==> qs[i].id != ObjectIdOf(e.questionId.text)
  {
  }

  /** What an accepted entry means: it is stored under its own key, a low
      score on a 1-5 or calibration question always carries a non-blank
      comment and a high one none, and a forced choice of the higher-value
      option carries a non-blank comment while the other choice carries none. */
  lemma AcceptedEntry(e: Entry, qs: seq<Question>)
    requires CheckEntry(e, qs).Ok?
    ensures var d := CheckEntry(e, qs).value;
      var q := FindQuestion(qs, e.questionId.text).value;
      var a := e.answer.value;
      && d.assessmentId == ObjectIdOf(e.assessmentId.text) && d.questionId == ObjectIdOf(e.questionId.text)
      && (IsScale(q) && AtMost3(a) ==> d.comment.Text? && !IsBlank(d.comment.text))
      && (IsScale(q) && Above3(a) ==> d.comment == Null)
      && (IsForcedChoice(q) && d.valueDirection == Some(Higher) ==> d.comment.Text? && !IsBlank(d.comment.text))
      && (IsForcedChoice(q) && d.valueDirection == Some(Lower) ==> d.comment == Null)
  {
    var q := FindQuestion(qs, e.questionId.text).value;
    var a := e.answer.value;
    if IsForcedChoice(q) && Truthy(q.higherValueOption) && a == Str(q.higherValueOption.text) {
      assert StrictEq(a, q.higherValueOption);
    }
  }

  // ---------------------------------------------------------------------
  // The upsert

  function KeyIs(assessmentId: Id, questionId: Id): Response -> bool {
    (x: Response) => SameKey(x, assessmentId, questionId)
  }

  /** The update `{...fullResponseData}` applied to an existing record: an
      undefined comment is left out of the update, so the old one stays.
      This is Mongoose 7 and later, which strips undefined keys from every
      update; earlier versions send them, and the comment becomes null. */
  function Merge(old_: Response, d: Response): Response {
    if d.comment.Absent? then d.(comment := old_.comment) else d
  }

  /** `findOneAndUpdate({ assessmentId, questionId }, d, { upsert: true })`
      on the stored sequence. */
  function Upsert(rs: seq<Response>, d: Response): seq<Response> {
    match FirstIndex(rs, KeyIs(d.assessmentId, d.questionId))
    case Some(k) => rs[k := Merge(rs[k], d)]
    case None => rs + [d]
  }

  /** The document `findOneAndUpdate` returns with `new: true`. */
  function Applied(rs: seq<Response>, d: Response): Response {
    match FirstIndex(rs, KeyIs(d.assessmentId, d.questionId))
    case Some(k) => Merge(rs[k], d)
    case None => d
  }

  /** An upsert keeps one record per key; afterwards the record under the
      entry's key is the returned document, and every record under another
      key is where it was. */
  lemma UpsertSpec(rs: seq<Response>, d: Response)
    requires KeysUnique(rs)
    ensures var r := Upsert(rs, d);
      && KeysUnique(r)
      && (|r| == |rs| || |r| == |rs| + 1)
      && Applied(rs, d) in r
      && SameKey(Applied(rs, d), d.assessmentId, d.questionId)
      && (forall i :: 0 <= i < |r| && SameKey(r[i], d.assessmentId, d.questionId) ==> r[i] == Applied(rs, d))
      && (forall i :: 0 <= i < |rs| && !SameKey(rs[i], d.assessmentId, d.questionId) ==> r[i] == rs[i])
  {
    var r := Upsert(rs, d);
    match FirstIndex(rs, KeyIs(d.assessmentId, d.questionId))
    case Some(k) =>
      assert KeyIs(d.assessmentId, d.questionId)(rs[k]);
      assert r[k] == Applied(rs, d);
      forall i, j | 0 <= i < j < |r| ensures !SameKey(r[j], r[i].assessmentId, r[i].questionId) {
        assert SameKey(rs[k], d.assessmentId, d.questionId);
      }
      forall i | 0 <= i < |rs| && i != k ensures !SameKey(rs[i], d.assessmentId, d.questionId) {
        if i < k {
          assert !SameKey(rs[k], rs[i].assessmentId, rs[i].questionId);
        } else {
          assert !SameKey(rs[i], rs[k].assessmentId, rs[k].questionId);
        }
      }
    case None =>
      forall i | 0 <= i < |rs| ensures !SameKey(rs[i], d.assessmentId, d.questionId) {
        assert !KeyIs(d.assessmentId, d.questionId)(rs[i]);
      }
      assert r[|rs|] == d;
  }

  /** The store side of `findOneAndUpdate`: a scan for the first record with
      the key, then an update in place or an insert. */
  method FindOneAndUpsert(db: Db, d: Response) returns (saved: Response)
    requires db.Valid()
    modifies db`responses
    ensures db.Valid()
    ensures db.responses == Upsert(old(db.responses), d)
    ensures saved == Applied(old(db.responses), d)
  {
    UpsertSpec(db.responses, d);
    var i := 0;
    while i < |db.responses| && !SameKey(db.responses[i], d.assessmentId, d.questionId)
      invariant 0 <= i <= |db.responses|
      invariant forall j :: 0 <= j < i ==> !SameKey(db.responses[j], d.assessmentId, d.questionId)
    {
      i := i + 1;
    }
    if i < |db.responses| {
      FirstIndexAt(db.responses, KeyIs(d.assessmentId, d.questionId), i);
      saved := Merge(db.responses[i], d);
      db.responses := db.responses[i := saved];
    } else {
      FirstIndexNone(db.responses, KeyIs(d.assessmentId, d.questionId));
      saved := d;
      db.responses := db.responses + [d];
    }
  }

  // ---------------------------------------------------------------------
  // The batch

  /** The store after a run and the handler's answer. */
  datatype Outcome = Outcome(store: seq<Response>, result: Result<seq<Response>>)

  /** `savedResponses` in front of what the rest of the batch returns. */
  function PrependAll(saved: seq<Response>, o: Outcome): Outcome {
    Outcome(o.store, if o.result.Ok? then Ok(saved + o.result.value) else o.result)
  }

  /** The result of checking each entry of a batch. A check reads only the
      questions, which the batch never writes, so checking an entry after the
      earlier upserts gives the same result as checking it up front. */
  function Checks(es: seq<Entry>, qs: seq<Question>): (cs: seq<Result<Response>>)
    ensures |cs| == |es|
    ensures forall j :: 0 <= j < |es| ==> cs[j] == CheckEntry(es[j], qs)
  {
    seq(|es|, j requires 0 <= j < |es| => CheckEntry(es[j], qs))
  }

  /** The upserts of a run of checked entries: the first refusal ends the
      run, leaving the earlier upserts in place. */
  function SaveChecked(rs: seq<Response>, cs: seq<Result<Response>>): Outcome
    decreases |cs|
  {
    if cs == [] then Outcome(rs, Ok([]))
    else match cs[0]
      case Err(f) => Outcome(rs, Err(f))
      case Ok(d) => PrependAll([Applied(rs, d)], SaveChecked(Upsert(rs, d), cs[1..]))
  }

  /** The loop over the entries: each is checked, then upserted; the first
      refused entry ends the run, leaving the earlier upserts in place. */
  function SaveAll(rs: seq<Response>, es: seq<Entry>, qs: seq<Question>): Outcome {
    SaveChecked(rs, Checks(es, qs))
  }

  /** One turn of the loop. */
  lemma SaveAllStep(rs: seq<Response>, es: seq<Entry>, qs: seq<Question>)
    requires es != []
    ensures CheckEntry(es[0], qs).Err? ==>
      SaveAll(rs, es, qs) == Outcome(rs, Err(CheckEntry(es[0], qs).failure))
    ensures CheckEntry(es[0], qs).Ok? ==>
      var d := CheckEntry(es[0], qs).value;
      SaveAll(rs, es, qs) == PrependAll([Applied(rs, d)], SaveAll(Upsert(rs, d), es[1..], qs))
  {
    assert Checks(es, qs)[1..] == Checks(es[1..], qs);
  }

  /** The whole handler: a body that is not an array, or an empty one, is
      refused before anything is stored. */
  function SaveResponseSpec(rs: seq<Response>, body: Option<seq<Entry>>, qs: seq<Question>): (o: Outcome)
    ensures body.None? || body.value == [] ==> o == Outcome(rs, Err(BadRequest("Invalid response data")))
  {
    if body.None? || body.value == [] then Outcome(rs, Err(BadRequest("Invalid response data")))
    else SaveAll(rs, body.value, qs)
  }

  /** Helper for the loop of `SaveResponse`: the saved prefix may grow one
      response at a time. */
  lemma PrependAllTwice(a: seq<Response>, b: seq<Response>, o: Outcome)
    ensures PrependAll(a, PrependAll(b, o)) == PrependAll(a + b, o)
  {
    if o.result.Ok? {
      assert a + (b + o.result.value) == (a + b) + o.result.value;
    }
  }

  /** The upserts keep one stored response per key. */
  lemma {:induction false} CheckedKeepsKeysUnique(rs: seq<Response>, cs: seq<Result<Response>>)
    requires KeysUnique(rs)
    ensures KeysUnique(SaveChecked(rs, cs).store)
    decreases |cs|
  {
    if cs != [] && cs[0].Ok? {
      UpsertSpec(rs, cs[0].value);
      CheckedKeepsKeysUnique(Upsert(rs, cs[0].value), cs[1..]);
    }
  }

  /** The batch keeps one stored response per (assessmentId, questionId). */
  lemma SaveAllKeepsKeysUnique(rs: seq<Response>, es: seq<Entry>, qs: seq<Question>)
    requires KeysUnique(rs)
    ensures KeysUnique(SaveAll(rs, es, qs).store)
  {
    CheckedKeepsKeysUnique(rs, Checks(es, qs));
  }

  lemma {:induction false} CheckedFirstRefusal(rs: seq<Response>, cs: seq<Result<Response>>, k: nat)
    requires k < |cs| && cs[k].Err?
    requires forall j :: 0 <= j < k ==> cs[j].Ok?
    ensures SaveChecked(rs, cs[..k]).result.Ok?
    ensures SaveChecked(rs, cs) == Outcome(SaveChecked(rs, cs[..k]).store, Err(cs[k].failure))
    decreases k
  {
    if k > 0 {
      var d := cs[0].value;
      assert cs[..k][0] == cs[0];
      assert cs[..k][1..] == cs[1..][..k - 1];
      CheckedFirstRefusal(Upsert(rs, d), cs[1..], k - 1);
    }
  }

  /** When entry `k` is the first refused one, the store holds exactly what
      the entries before it wrote, the answer is that entry's refusal, and the
      entries after it play no part. */
  lemma FirstRefusalStops(rs: seq<Response>, es: seq<Entry>, qs: seq<Question>, k: nat)
    requires k < |es| && CheckEntry(es[k], qs).Err?
    requires forall j :: 0 <= j < k ==> CheckEntry(es[j], qs).Ok?
    ensures SaveAll(rs, es[..k], qs).result.Ok?
    ensures SaveAll(rs, es, qs) == Outcome(SaveAll(rs, es[..k], qs).store, Err(CheckEntry(es[k], qs).failure))
  {
    var cs := Checks(es, qs);
    assert Checks(es[..k], qs) == cs[..k];
    CheckedFirstRefusal(rs, cs, k);
  }

  /** Every accepted check gives one saved document, under its own key. */
  lemma {:induction false} CheckedAllAccepted(rs: seq<Response>, cs: seq<Result<Response>>)
    requires forall j :: 0 <= j < |cs| ==> cs[j].Ok?
    ensures var o := SaveChecked(rs, cs);
      && o.result.Ok? && |o.result.value| == |cs|
      && forall j :: 0 <= j < |cs| ==>
           SameKey(o.result.value[j], cs[j].value.assessmentId, cs[j].value.questionId)
    decreases |cs|
  {
    if cs != [] {
      var d := cs[0].value;
      UpsertSpecKey(rs, d);
      var rest := SaveChecked(Upsert(rs, d), cs[1..]);
      CheckedAllAccepted(Upsert(rs, d), cs[1..]);
      assert SaveChecked(rs, cs).result.value == [Applied(rs, d)] + rest.result.value;
      forall j | 1 <= j < |cs|
        ensures SameKey(SaveChecked(rs, cs).result.value[j], cs[j].value.assessmentId, cs[j].value.questionId)
      {
        assert cs[1..][j - 1] == cs[j];
      }
    }
  }

  /** When every entry is accepted, the answer lists one saved document per
      entry, in input order, each under that entry's key. */
  lemma AllAcceptedInOrder(rs: seq<Response>, es: seq<Entry>, qs: seq<Question>)
    requires forall j :: 0 <= j < |es| ==> CheckEntry(es[j], qs).Ok?
    ensures var o := SaveAll(rs, es, qs);
      && o.result.Ok? && |o.result.value| == |es|
      && forall j :: 0 <= j < |es| ==>
           (CheckEntry(es[j], qs).Ok? &&
            SameKey(o.result.value[j], ObjectIdOf(es[j].assessmentId.text), ObjectIdOf(es[j].questionId.text)))
  {
    CheckedAllAccepted(rs, Checks(es, qs));
  }

  lemma UpsertSpecKey(rs: seq<Response>, d: Response)
    ensures SameKey(Applied(rs, d), d.assessmentId, d.questionId)
  {
    match FirstIndex(rs, KeyIs(d.assessmentId, d.questionId))
    case Some(k) =>
      assert KeyIs(d.assessmentId, d.questionId)(rs[k]);
    case None =>
  }

  lemma {:induction false} CheckedUntouched(rs: seq<Response>, cs: seq<Result<Response>>, x: Response)
    requires KeysUnique(rs) && x in rs
    requires forall m :: 0 <= m < |cs| ==>
      (cs[m].Ok? && !SameKey(x, cs[m].value.assessmentId, cs[m].value.questionId))
    ensures x in SaveChecked(rs, cs).store
    decreases |cs|
  {
    if cs != [] {
      var d := cs[0].value;
      UpsertSpec(rs, d);
      var i :| 0 <= i < |rs| && rs[i] == x;
      assert Upsert(rs, d)[i] == x;
      forall m | 0 <= m < |cs[1..]|
        ensures cs[1..][m].Ok? && !SameKey(x, cs[1..][m].value.assessmentId, cs[1..][m].value.questionId)
      {
        assert cs[1..][m] == cs[m + 1];
      }
      CheckedUntouched(Upsert(rs, d), cs[1..], x);
    }
  }

  /** A stored record survives a run of accepted entries that all have
      other keys. */
  lemma UntouchedKeyStays(rs: seq<Response>, es: seq<Entry>, qs: seq<Question>, x: Response)
    requires KeysUnique(rs) && x in rs
    requires forall m :: 0 <= m < |es| ==>
      (CheckEntry(es[m], qs).Ok? && !SameKey(x, ObjectIdOf(es[m].assessmentId.text), ObjectIdOf(es[m].questionId.text)))
    ensures x in SaveAll(rs, es, qs).store
  {
    CheckedUntouched(rs, Checks(es, qs), x);
  }

  /** The document saved for the first check of a run survives the rest of
      the run when no later check has its key. */
  lemma CheckedHeadStays(rs: seq<Response>, cs: seq<Result<Response>>, d: Response)
    requires KeysUnique(rs) && cs != [] && cs[0] == Ok(d)
    requires forall m :: 0 <= m < |cs| ==> cs[m].Ok?
    requires forall m :: 0 < m < |cs| ==> !SameKey(cs[m].value, d.assessmentId, d.questionId)
    ensures Applied(rs, d) in SaveChecked(Upsert(rs, d), cs[1..]).store
  {
    UpsertSpec(rs, d);
    UpsertSpecKey(rs, d);
    forall m | 0 <= m < |cs[1..]|
      ensures cs[1..][m].Ok? && !SameKey(Applied(rs, d), cs[1..][m].value.assessmentId, cs[1..][m].value.questionId)
    {
      assert cs[1..][m] == cs[m + 1];
    }
    CheckedUntouched(Upsert(rs, d), cs[1..], Applied(rs, d));
  }

  /** The last write to a key wins, over checked entries. */
  lemma {:induction false} CheckedLastWriteWins(rs: seq<Response>, cs: seq<Result<Response>>, j: nat)
    requires KeysUnique(rs)
    requires forall m :: 0 <= m < |cs| ==> cs[m].Ok?
    requires j < |cs|
    requires forall m :: j < m < |cs| ==>
      !SameKey(cs[m].value, cs[j].value.assessmentId, cs[j].value.questionId)
    ensures SaveChecked(rs, cs).result.Ok? && j < |SaveChecked(rs, cs).result.value|
    ensures SaveChecked(rs, cs).result.value[j] in SaveChecked(rs, cs).store
    decreases |cs|
  {
    CheckedAllAccepted(rs, cs);
    var d := cs[0].value;
    UpsertSpec(rs, d);
    var rest := SaveChecked(Upsert(rs, d), cs[1..]);
    CheckedAllAccepted(Upsert(rs, d), cs[1..]);
    assert SaveChecked(rs, cs).result.value == [Applied(rs, d)] + rest.result.value;
    if j == 0 {
      CheckedHeadStays(rs, cs, d);
    } else {
      forall m | j - 1 < m < |cs[1..]|
        ensures !SameKey(cs[1..][m].value, cs[1..][j - 1].value.assessmentId, cs[1..][j - 1].value.questionId)
      {
        assert cs[1..][m] == cs[m + 1];
      }
      CheckedLastWriteWins(Upsert(rs, d), cs[1..], j - 1);
    }
  }

  /** In a fully accepted batch, the document returned for an entry is the
      one left in the store unless a later entry has the same key: the last
      write to a key wins. */
  lemma LastWriteWins(rs: seq<Response>, es: seq<Entry>, qs: seq<Question>, j: nat)
    requires KeysUnique(rs)
    requires forall m :: 0 <= m < |es| ==> CheckEntry(es[m], qs).Ok?
    requires j < |es|
    requires forall m :: j < m < |es| ==>
      !SameTarget(es[m], es[j])
    ensures SaveAll(rs, es, qs).result.Ok? && j < |SaveAll(rs, es, qs).result.value|
    ensures SaveAll(rs, es, qs).result.value[j] in SaveAll(rs, es, qs).store
  {
    var cs := Checks(es, qs);
    forall m | j < m < |cs|
      ensures !SameKey(cs[m].value, cs[j].value.assessmentId, cs[j].value.questionId)
    {
      assert !SameTarget(es[m], es[j]);
    }
    CheckedLastWriteWins(rs, cs, j);
  }

  /** The handler: the loop keeps `savedResponses` and the store in step with
      the specification of the batch. */
  method SaveResponse(db: Db, body: Option<seq<Entry>>, questions: seq<Question>)
    returns (r: Result<seq<Response>>)
    requires db.Valid()
    modifies db`responses
    ensures db.Valid()
    ensures Outcome(db.responses, r) == SaveResponseSpec(old(db.responses), body, questions)
  {
    if body.None? || |body.value| == 0 {
      return Err(BadRequest("Invalid response data"));
    }
    var entries := body.value;
    var saved: seq<Response> := [];
    var i := 0;
    assert entries[i..] == entries;
    assert PrependAll([], SaveAll(db.responses, entries, questions)) == SaveAll(db.responses, entries, questions) by {
      var o := SaveAll(db.responses, entries, questions);
      if o.result.Ok? {
        assert [] + o.result.value == o.result.value;
      }
    }
    while i < |entries|
      invariant 0 <= i <= |entries|
      invariant db.Valid()
      invariant SaveAll(old(db.responses), entries, questions) ==
        PrependAll(saved, SaveAll(db.responses, entries[i..], questions))
    {
      assert entries[i..][0] == entries[i] && entries[i..][1..] == entries[i + 1..];
      var checked := CheckEntry(entries[i], questions);
      SaveAllStep(db.responses, entries[i..], questions);
      if checked.Err? {
        return Err(checked.failure);
      }
      var before := db.responses;
      var doc := FindOneAndUpsert(db, checked.value);
      PrependAllTwice(saved, [doc], SaveAll(db.responses, entries[i + 1..], questions));
      saved := saved + [doc];
      i := i + 1;
    }
    assert entries[i..] == [];
    assert saved + [] == saved;
    return Ok(saved);
  }

  /** `getResponsesByAssessment`: the responses of an assessment in storage
      order, refused when the id is empty or nothing is stored. */
  function GetResponsesByAssessment(rs: seq<Response>, assessmentId: string): (r: Result<seq<Response>>)
    ensures r.Ok? ==> r.value == ResponsesOf(rs, ObjectIdOf(assessmentId)) && r.value != []
    ensures r.Err? <==> !IsHex24(assessmentId) || ResponsesOf(rs, ObjectIdOf(assessmentId)) == []
    ensures assessmentId == "" ==> r == Err(BadRequest("Assessment ID is required"))
    ensures assessmentId != "" && !IsHex24(assessmentId) ==> r == Err(ServerError("Error fetching responses"))
  {
    if assessmentId == "" then Err(BadRequest("Assessment ID is required"))
    else if !IsHex24(assessmentId) then Err(ServerError("Error fetching responses"))
    else
      var found := ResponsesOf(rs, ObjectIdOf(assessmentId));
      if found == [] then Err(NotFound("No responses found for this assessment")) else Ok(found)
  }
}
