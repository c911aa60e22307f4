/**
 * The add-transaction form: reading the typed amount, the guard on the Add
 * button, and the record it builds.
 */
module AddExpense {
  import opened Wrappers
  import opened Models
  import opened Calendar
  import opened Text
  import HomeViewModel

  // ---------------------------------------------------------------- the amount

  /**
   * The first two fractional digits as hundredths; further digits are
   * dropped (the model keeps amounts in whole hundredths).
   */
  function Cents(frac: string): (r: int)
    requires frac != [] && AllDigits(frac)
    ensures 0 <= r < 100
  {
    10 * DigitValue(frac[0]) + (if |frac| == 1 then 0 else DigitValue(frac[1]))
  }

  /** An unsigned decimal `digits` or `digits.digits`, in hundredths. */
  function ParseUnsigned(s: string): (r: Option<int>)
    ensures r.Some? ==> r.value >= 0
    ensures r.Some? ==> s != [] && IsDigit(s[0]) && forall i :: 0 <= i < |s| ==> IsDigit(s[i]) || s[i] == '.'
  {
    match IndexOf(s, '.')
    case None =>
      if s != [] && AllDigits(s) then Some(100 * ParseDigits(s)) else None
    case Some(k) =>
      var whole := s[..k];
      var frac := s[k + 1..];
      if whole != [] && AllDigits(whole) && frac != [] && AllDigits(frac) then
        assert forall i :: 0 <= i < k ==> s[i] == whole[i];
        assert forall i :: k < i < |s| ==> s[i] == frac[i - k - 1];
        Some(100 * ParseDigits(whole) + Cents(frac))
      else None
  }

  /** An optionally signed decimal: a leading '-' or '+', then `ParseUnsigned`. */
  function ParseSigned(s: string): (r: Option<int>)
    ensures r.Some? ==> s != []
    ensures r.Some? ==> forall i :: 0 <= i < |s| ==>
      IsDigit(s[i]) || s[i] == '.' || (i == 0 && (s[i] == '-' || s[i] == '+'))
    ensures r.Some? && r.value < 0 ==> s[0] == '-'
  {
    if s != [] && (s[0] == '-' || s[0] == '+') then
      assert forall i :: 1 <= i < |s| ==> s[i] == s[1..][i - 1];
      match ParseUnsigned(s[1..])
      case None => None
      case Some(v) => Some(if s[0] == '-' then -v else v)
    else ParseUnsigned(s)
  }

  /** The characters the JVM float reader skips around a number: code points 0 to 0x20. */
  predicate IsPad(c: char) {
    c as int <= 0x20
  }

  predicate AllPad(s: string) {
    forall i :: 0 <= i < |s| ==> IsPad(s[i])
  }

  /** The type suffix the JVM float reader allows after a number. */
  predicate IsTypeSuffix(c: char) {
    c == 'f' || c == 'F' || c == 'd' || c == 'D'
  }

  /** The first position at or after `i` that is not padding (or the end). */
  function PadEnd(s: string, i: nat): (r: nat)
    requires i <= |s|
    ensures i <= r <= |s|
    ensures forall k :: i <= k < r ==> IsPad(s[k])
    ensures r == |s| || !IsPad(s[r])
    decreases |s| - i
  {
    if i < |s| && IsPad(s[i]) then PadEnd(s, i + 1) else i
  }

  /** The position after the last non-padding character before `j`, but not below `lo`. */
  function PadStart(s: string, lo: nat, j: nat): (r: nat)
    requires lo <= j <= |s|
    ensures lo <= r <= j
    ensures forall k :: r <= k < j ==> IsPad(s[k])
    ensures r == lo || !IsPad(s[r - 1])
    decreases j
  {
    if j > lo && IsPad(s[j - 1]) then PadStart(s, lo, j - 1) else j
  }

  /** The text without the padding on either side (String.trim on the JVM). */
  function StripPad(s: string): (t: string)
    ensures |t| <= |s|
    ensures t == [] || (!IsPad(t[0]) && !IsPad(t[|t| - 1]))
  {
    var a := PadEnd(s, 0);
    var b := PadStart(s, a, |s|);
    s[a..b]
  }

  /** The characters a text the reader accepts can hold. */
  predicate ReaderChar(c: char) {
    IsDigit(c) || c == '.' || c == '-' || c == '+' || IsTypeSuffix(c) || IsPad(c)
  }

  predicate AllReaderChars(s: string) {
    forall i :: 0 <= i < |s| ==> ReaderChar(s[i])
  }

  /**
   * `amount.toDoubleOrNull()` as the JVM reads it, for the plain decimal
   * notation: padding characters (code points up to 0x20) on either side are
   * skipped, one type suffix f, F, d or D may follow the number, and the number
   * is an optional sign, digits, and optionally a point followed by digits.
   * Anything else does not parse.
   */
  function ParseAmount(s: string): (r: Option<int>)
    ensures r.Some? ==> s != []
    ensures r.Some? ==> AllReaderChars(s)
  {
    var t := StripPad(s);
    var core := Unsuffixed(t);
    var r := ParseSigned(core);
    if r.Some? then
      CoreReaderChars(t, core);
      PaddedReaderChars(s, t);
      r
    else r
  }

  /** The number part of a stripped text: without its type suffix, if it has one. */
  function Unsuffixed(t: string): (core: string)
    ensures core == t || (t != [] && core == t[..|t| - 1] && IsTypeSuffix(t[|t| - 1]))
  {
    if t != [] && IsTypeSuffix(t[|t| - 1]) then t[..|t| - 1] else t
  }

  /** The reader reads the signed decimal left once padding and suffix are set aside. */
  lemma AmountOfCore(s: string, core: string)
    requires Unsuffixed(StripPad(s)) == core
    ensures ParseAmount(s) == ParseSigned(core)
  {
  }

  lemma CoreReaderChars(t: string, core: string)
    requires core == t || (t != [] && core == t[..|t| - 1] && IsTypeSuffix(t[|t| - 1]))
    requires forall i :: 0 <= i < |core| ==> IsDigit(core[i]) || core[i] == '.' || core[i] == '-' || core[i] == '+'
    ensures AllReaderChars(t)
  {
    forall i | 0 <= i < |t|
      ensures ReaderChar(t[i])
    {
      if i < |core| {
        assert t[i] == core[i];
      }
    }
  }

  /** A text is accepted character by character when its stripped core is. */
  lemma PaddedReaderChars(s: string, t: string)
    requires t == StripPad(s) && AllReaderChars(t)
    ensures AllReaderChars(s)
  {
    var a := PadEnd(s, 0);
    var b := PadStart(s, a, |s|);
    assert t == s[a..b];
    forall i | 0 <= i < |s|
      ensures ReaderChar(s[i])
    {
      if a <= i < b {
        assert s[i] == t[i - a];
      }
    }
  }

  /**
   * Padding around a number and a type suffix after it are skipped: the
   * reader reads only the number between them.
   */
  lemma ReadsCore(before: string, core: string, suffix: string, after: string)
    requires AllPad(before) && AllPad(after)
    requires suffix == [] || (|suffix| == 1 && IsTypeSuffix(suffix[0]))
    requires core != [] && !IsPad(core[0]) && !IsPad(core[|core| - 1]) && !IsTypeSuffix(core[|core| - 1])
    ensures ParseAmount(before + core + suffix + after) == ParseSigned(core)
  {
    var body := core + suffix;
    var s := before + body + after;
    assert before + core + suffix + after == s;
    SkipsPadding(before, body, after);
    if suffix != [] {
      assert body[..|body| - 1] == core;
    } else {
      assert body == core;
    }
    assert Unsuffixed(body) == core;
    AmountOfCore(s, core);
  }

  /** A number with nothing around it is read as it stands. */
  lemma ReadsPlain(core: string)
    requires core != [] && !IsPad(core[0]) && !IsPad(core[|core| - 1]) && !IsTypeSuffix(core[|core| - 1])
    ensures ParseAmount(core) == ParseSigned(core)
  {
    SkipsPadding([], core, []);
    assert [] + core + [] == core;
    AmountOfCore(core, core);
  }

  /** Stripping removes exactly the padding around a text with non-padding ends. */
  lemma SkipsPadding(before: string, body: string, after: string)
    requires AllPad(before) && AllPad(after)
    requires body != [] && !IsPad(body[0]) && !IsPad(body[|body| - 1])
    ensures StripPad(before + body + after) == body
  {
    var s := before + body + after;
    var a, b := |before|, |before| + |body|;
    assert forall k :: 0 <= k < a ==> s[k] == before[k];
    assert forall k :: b <= k < |s| ==> s[k] == after[k - b];
    assert s[a] == body[0] && s[b - 1] == body[|body| - 1];
    PadEndAt(s, 0, a);
    PadStartAt(s, a, |s|, b);
    assert s[a..b] == body;
  }

  lemma {:induction false} PadEndAt(s: string, i: nat, m: nat)
    requires i <= m < |s|
    requires forall k :: i <= k < m ==> IsPad(s[k])
    requires !IsPad(s[m])
    ensures PadEnd(s, i) == m
    decreases m - i
  {
    if i < m {
      PadEndAt(s, i + 1, m);
    }
  }

  lemma {:induction false} PadStartAt(s: string, lo: nat, j: nat, m: nat)
    requires lo < m <= j <= |s|
    requires forall k :: m <= k < j ==> IsPad(s[k])
    requires !IsPad(s[m - 1])
    ensures PadStart(s, lo, j) == m
    decreases j
  {
    if m < j {
      PadStartAt(s, lo, j - 1, m);
    }
  }

  /** Hundredths written the plain way: sign, whole units, a point, two digits. */
  function AmountText(cents: int): string {
    if cents < 0 then "-" + UnsignedText(-cents) else UnsignedText(cents)
  }

  /** A non-negative number of hundredths as whole units, a point and two digits. */
  function UnsignedText(m: nat): string {
    var c := m % 100;
    NatToString(m / 100) + "." + [DigitChar(c / 10), DigitChar(c % 10)]
  }

  /** Reading back a plainly written amount gives the amount. */
  lemma ParseAmountText(cents: int)
    ensures ParseAmount(AmountText(cents)) == Some(cents)
  {
    SignedAmountText(cents);
    ReadsPlain(AmountText(cents));
  }

  /**
   * The reader's tolerance: padding on either side and a type suffix after
   * the number leave the amount unchanged, so " 12.50 " and "12.50d" read as
   * 12.50.
   */
  lemma PaddedAmount(before: string, cents: int, suffix: string, after: string)
    requires AllPad(before) && AllPad(after)
    requires suffix == [] || (|suffix| == 1 && IsTypeSuffix(suffix[0]))
    ensures ParseAmount(before + AmountText(cents) + suffix + after) == Some(cents)
  {
    SignedAmountText(cents);
    ReadsCore(before, AmountText(cents), suffix, after);
  }

  /** The signed reading of a plainly written amount is the amount, and its ends are a sign or digits. */
  lemma SignedAmountText(cents: int)
    ensures ParseSigned(AmountText(cents)) == Some(cents)
    ensures var s := AmountText(cents); |s| >= 4 && (IsDigit(s[0]) || s[0] == '-') && IsDigit(s[|s| - 1])
  {
    if cents < 0 {
      UnsignedTextRoundTrip(-cents);
      ParseNegated(UnsignedText(-cents), -cents);
    } else {
      UnsignedTextRoundTrip(cents);
    }
  }

  lemma UnsignedTextRoundTrip(m: nat)
    ensures ParseUnsigned(UnsignedText(m)) == Some(m)
    ensures IsDigit(UnsignedText(m)[0])
    ensures |UnsignedText(m)| >= 4 && IsDigit(UnsignedText(m)[|UnsignedText(m)| - 1])
  {
    UnsignedRoundTrip(m / 100, m % 100);
  }

  /** A leading '-' negates the unsigned reading of what follows. */
  lemma ParseNegated(body: string, v: int)
    requires body != [] && IsDigit(body[0])
    requires ParseUnsigned(body) == Some(v)
    ensures ParseSigned("-" + body) == Some(-v)
  {
    assert ("-" + body)[1..] == body;
  }

  lemma UnsignedRoundTrip(w: nat, c: nat)
    requires c < 100
    ensures ParseUnsigned(NatToString(w) + "." + [DigitChar(c / 10), DigitChar(c % 10)]) == Some(100 * w + c)
  {
    var frac := [DigitChar(c / 10), DigitChar(c % 10)];
    ParseUnsignedParts(NatToString(w), frac);
    ParseNatToString(w);
    assert DigitValue(frac[0]) == c / 10 && DigitValue(frac[1]) == c % 10;
  }

  /** A point between two digit strings splits the text into whole units and hundredths. */
  lemma ParseUnsignedParts(whole: string, frac: string)
    requires whole != [] && AllDigits(whole)
    requires frac != [] && AllDigits(frac)
    ensures ParseUnsigned(whole + "." + frac) == Some(100 * ParseDigits(whole) + Cents(frac))
  {
    var s := whole + "." + frac;
    assert s == whole + ['.'] + frac;
    assert '.' !in whole;
    IndexOfConcat(whole, '.', frac);
    assert s[..|whole|] == whole && s[|whole| + 1..] == frac;
  }

  /** A whole number of units parses as that many hundreds of hundredths. */
  lemma ParseWholeAmount(n: nat)
    ensures ParseAmount(NatToString(n)) == Some(100 * n)
  {
    var s := NatToString(n);
    SignedWhole(n);
    ReadsPlain(s);
  }

  lemma SignedWhole(n: nat)
    ensures ParseSigned(NatToString(n)) == Some(100 * n)
    ensures IsDigit(NatToString(n)[0]) && IsDigit(NatToString(n)[|NatToString(n)| - 1])
  {
    var s := NatToString(n);
    ParseNatToString(n);
    assert '.' !in s;
  }

  /**
   * In the plain-decimal notation modelled here, text holding a character that
   * is neither a digit, a point, a sign, a type suffix nor padding
   * (`ReaderChar`), such as "abc" or "12,50", gives no amount. The JVM reader
   * also accepts exponents, "NaN", "Infinity" and hexadecimal floating point,
   * which this model does not read.
   */
  lemma NonNumericHasNoAmount(s: string)
    requires exists i :: 0 <= i < |s| && !ReaderChar(s[i])
    ensures ParseAmount(s).None?
  {
  }

  // ------------------------------------------------------------- the Add button

  /** The form's fields. The income/expense toggle starts at "expense". */
  datatype Form = Form(title: string, amount: string, category: Option<Category>, isIncome: bool)

  /** The empty form shown when the screen opens. */
  const EmptyForm := Form("", "", None, false)

  /**
   * The record timestamp: the current instant turned into local date-time and
   * back in the same zone, to whole milliseconds. With a fixed zone offset
   * this is the current instant itself.
   */
  function Timestamp(now: int, offset: int): (t: int)
    ensures t == now
  {
    ToLocal(now, offset).LocalMillis() - offset
  }

  /**
   * Pressing Add: with a non-blank title, a non-blank amount and a chosen
   * category, the transaction is built (an amount that does not parse
   * becomes 0); otherwise nothing happens.
   */
  function Submit(f: Form, now: int, offset: int): (r: Option<Expense>)
    ensures r.Some? <==> !IsBlank(f.title) && !IsBlank(f.amount) && f.category.Some?
    ensures r.Some? ==> r.value.id == 0 && r.value.title == f.title && r.value.category == f.category.value.title
    ensures r.Some? ==> r.value.amount == ParseAmount(f.amount).GetOr(0)
    ensures r.Some? ==> r.value.tax == 0 && r.value.date == now && r.value.createdAt == now
    ensures r.Some? ==> r.value.kind == (if f.isIncome then IncomeType else ExpenseType)
    ensures r.Some? ==> (r.value.IsIncome() <==> f.isIncome)
  {
    if !IsBlank(f.title) && !IsBlank(f.amount) && f.category.Some? then
      var t := Timestamp(now, offset);
      assert ExpenseType[0] != IncomeType[0];
      Some(Expense(0, f.title, ParseAmount(f.amount).GetOr(0), f.category.value.title,
                   if f.isIncome then IncomeType else ExpenseType, 0, t, t))
    else None
  }

  /** The empty form cannot be submitted. */
  lemma EmptyFormBlocked(now: int, offset: int)
    ensures Submit(EmptyForm, now, offset).None?
    ensures !EmptyForm.isIncome
  {
  }

  /**
   * A submitted transaction moves exactly one home-screen total by its
   * amount: the income total when the toggle says income, otherwise the
   * expense total.
   */
  lemma SubmittedCountsOnItsSide(f: Form, now: int, offset: int, xs: seq<Expense>)
    requires Submit(f, now, offset).Some?
    ensures var e := Submit(f, now, offset).value;
      var before := HomeViewModel.UpdateBalances(xs);
      var after := HomeViewModel.UpdateBalances([e] + xs);
      after.totalIncome == before.totalIncome + (if f.isIncome then e.amount else 0)
      && after.totalExpenses == before.totalExpenses + (if f.isIncome then 0 else e.amount)
  {
    var e := Submit(f, now, offset).value;
    assert ([e] + xs)[1..] == xs;
  }
}
