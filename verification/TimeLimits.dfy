/**
 src/icpc_verify/timelimits.py: the overshoot language "Xs", "Y%", "Xs|Y%", "Xs&Y%"
 and the hard-kill time.  `space` is the white space of the host language.
 */
module TimeLimits {
  import opened Options
  import opened Text

  datatype TimeLimits = TimeLimits(limit: real, overshoot: real, hardKill: real) {
    /** What `MakeTimeLimits` returns, see `LimitsAreValid`. */
    ghost predicate Valid() {
      0.0 < limit && 0.0 <= overshoot && hardKill == limit + overshoot
    }
  }

  datatype Error = LimitNotPositive | EmptySpec | BothSeparators | NotTwoTerms | BadTerm

  datatype Result<+T> = Ok(value: T) | Err(error: Error) {
    predicate IsFailure() { Err? }
    function PropagateFailure<U>(): Result<U>
      requires Err?
    {
      Err(error)
    }
    function Extract(): T
      requires Ok?
    {
      value
    }
  }

  // ----- the program

  /** The value of the digits after the point. */
  function FractionValue(s: string): (v: real)
    requires forall i :: 0 <= i < |s| ==> IsDigit(s[i])
    ensures 0.0 <= v
  {
    if s == [] then 0.0
    else
      assert IsDigit(s[0]);
      ((s[0] - '0') as int as real + FractionValue(s[1..])) / 10.0
  }

  /** `\d+(?:\.\d+)?` and its value. */
  function ParseNumber(s: string): Option<real> {
    var parts := SplitOn(s, '.');
    if |parts| == 1 && AllDigits(parts[0]) then Some(DigitsValue(parts[0]) as real)
    else if |parts| == 2 && AllDigits(parts[0]) && AllDigits(parts[1])
    then Some(DigitsValue(parts[0]) as real + FractionValue(parts[1]))
    else None
  }

  function PercentOf(limit: real, x: real): real { limit * x / 100.0 }

  function TermToSeconds(term: string, limit: real): Result<real> {
    if term == [] then Err(BadTerm)
    else
      var number := ParseNumber(term[..|term| - 1]);
      var unit := term[|term| - 1];
      if number.Some? && unit == 's' then Ok(number.value)
      else if number.Some? && unit == '%' then Ok(PercentOf(limit, number.value))
      else Err(BadTerm)
  }

  function Max(x: real, y: real): real { if x < y then y else x }

  function Min(x: real, y: real): real { if y < x then y else x }

  function Combine(space: char -> bool, spec: string, sep: char, limit: real): Result<real> {
    var terms := SplitOn(spec, sep);
    if |terms| != 2 then Err(NotTwoTerms)
    else
      var x :- TermToSeconds(Strip(space, terms[0]), limit);
      var y :- TermToSeconds(Strip(space, terms[1]), limit);
      Ok(if sep == '|' then Max(x, y) else Min(x, y))
  }

  function Overshoot(space: char -> bool, spec: string, limit: real): Result<real> {
    if '|' in spec then Combine(space, spec, '|', limit)
    else if '&' in spec then Combine(space, spec, '&', limit)
    else TermToSeconds(spec, limit)
  }

  function MakeTimeLimits(space: char -> bool, limit: real, overshootSpec: string): Result<TimeLimits> {
    if limit <= 0.0 then Err(LimitNotPositive)
    else
      var spec := Strip(space, overshootSpec);
      if spec == [] then Err(EmptySpec)
      else if '|' in spec && '&' in spec then Err(BothSeparators)
      else
        var overshoot :- Overshoot(space, spec, limit);
        Ok(TimeLimits(limit, overshoot, limit + overshoot))
  }

  // ----- the language

  datatype Numeral = Whole(digits: string) | Decimal(digits: string, fraction: string) {
    ghost predicate Valid() { AllDigits(digits) && (Decimal? ==> AllDigits(fraction)) }
    function Print(): string {
      if Whole? then digits else digits + "." + fraction
    }
    ghost function Value(): real
      requires Valid()
    {
      DigitsValue(digits) as real + if Whole? then 0.0 else FractionValue(fraction)
    }
  }

  datatype Term = Seconds(n: Numeral) | Percent(n: Numeral) {
    ghost predicate Valid() { n.Valid() }
    function Print(): string { n.Print() + [if Seconds? then 's' else '%'] }
    ghost function Value(limit: real): real
      requires Valid()
    {
      if Seconds? then n.Value() else PercentOf(limit, n.Value())
    }
  }

  datatype Spec = Single(t: Term) | Larger(t: Term, u: Term) | Smaller(t: Term, u: Term) {
    ghost predicate Valid() { t.Valid() && (!Single? ==> u.Valid()) }

    /** The spec with blanks `p` and `q` around its separator. */
    function Body(p: string, q: string): string {
      match this
      case Single(t) => t.Print()
      case Larger(t, u) => (t.Print() + p) + "|" + (q + u.Print())
      case Smaller(t, u) => (t.Print() + p) + "&" + (q + u.Print())
    }

    /** The spec with blanks before, around the separator, and after. */
    function Print(pad: seq<string>): string
      requires |pad| == 4
    {
      pad[0] + Body(pad[1], pad[2]) + pad[3]
    }

    ghost function Value(limit: real): real
      requires Valid()
    {
      match this
      case Single(t) => t.Value(limit)
      case Larger(t, u) => Max(t.Value(limit), u.Value(limit))
      case Smaller(t, u) => Min(t.Value(limit), u.Value(limit))
    }
  }

  /** White space is none of the characters of a term or a separator. */
  ghost predicate Ordinary(space: char -> bool) {
    && (forall c :: IsDigit(c) ==> !space(c))
    && !space('s') && !space('%') && !space('|') && !space('&')
  }

  ghost predicate Padding(space: char -> bool, pad: seq<string>) {
    |pad| == 4 && forall p :: p in pad ==> Blank(space, p)
  }

  // ----- the parser reads exactly the language

  /** `x` with its point moved `places` to the left. */
  function Shifted(x: real, places: nat): real {
    if places == 0 then x else Shifted(x, places - 1) / 10.0
  }

  lemma MovePoint(digits: string, fraction: string)
    requires fraction != []
    requires forall i :: 0 <= i < |digits| ==> IsDigit(digits[i])
    requires forall i :: 0 <= i < |fraction| ==> IsDigit(fraction[i])
    ensures 10.0 * (DigitsValue(digits) as real + FractionValue(fraction))
            == DigitsValue(digits + [fraction[0]]) as real + FractionValue(fraction[1..])
  {
    var longer := digits + [fraction[0]];
    assert longer[..|longer| - 1] == digits && longer[|longer| - 1] == fraction[0];
  }

  /** A decimal numeral means its digits without the point, shifted by the length of its
      fraction. */
  lemma {:induction false} DecimalMeaning(digits: string, fraction: string)
    requires forall i :: 0 <= i < |digits| ==> IsDigit(digits[i])
    requires forall i :: 0 <= i < |fraction| ==> IsDigit(fraction[i])
    ensures DigitsValue(digits) as real + FractionValue(fraction)
            == Shifted(DigitsValue(digits + fraction) as real, |fraction|)
    decreases |fraction|
  {
    if fraction == [] {
      assert digits + fraction == digits;
    } else {
      MovePoint(digits, fraction);
      DecimalMeaning(digits + [fraction[0]], fraction[1..]);
      hide DigitsValue, FractionValue;
      assert digits + [fraction[0]] + fraction[1..] == digits + fraction;
    }
  }

  lemma NumberRoundTrip(n: Numeral)
    requires n.Valid()
    ensures ParseNumber(n.Print()) == Some(n.Value())
  {
    assert '.' !in n.digits;
    SplitPrefix(n.digits, if n.Whole? then "" else n.fraction, '.');
    if n.Decimal? {
      assert '.' !in n.fraction;
      SplitPrefix(n.fraction, "", '.');
    }
  }

  lemma ParsedNumber(s: string) returns (n: Numeral)
    requires ParseNumber(s).Some?
    ensures n.Valid() && n.Print() == s
  {
    SplitThenJoin(s, '.');
    var parts := SplitOn(s, '.');
    n := if |parts| == 1 then Whole(parts[0]) else Decimal(parts[0], parts[1]);
    if |parts| == 2 { assert JoinWith(parts[1..], '.') == parts[1]; }
  }

  lemma TermRoundTrip(t: Term, limit: real)
    requires t.Valid()
    ensures TermToSeconds(t.Print(), limit) == Ok(t.Value(limit))
  {
    NumberRoundTrip(t.n);
    var s := t.Print();
    assert s[..|s| - 1] == t.n.Print();
    assert s[|s| - 1] == if t.Seconds? then 's' else '%';
  }

  lemma ParsedTerm(s: string, limit: real) returns (t: Term)
    requires TermToSeconds(s, limit).Ok?
    ensures t.Valid() && t.Print() == s
  {
    var n := ParsedNumber(s[..|s| - 1]);
    t := if s[|s| - 1] == 's' then Seconds(n) else Percent(n);
  }

  /** A term has visible ends and no separator. */
  lemma TermShape(space: char -> bool, t: Term)
    requires Ordinary(space) && t.Valid()
    ensures t.Print() != [] && Trimmed(space, t.Print()) && '|' !in t.Print() && '&' !in t.Print()
  {
    assert t.Print()[0] == t.n.digits[0];
    assert IsDigit(t.n.digits[0]);
  }

  /** The text of a term with its value, as the two-term forms use it. */
  ghost predicate TermText(space: char -> bool, x: string, limit: real, v: real) {
    x != [] && Trimmed(space, x) && '|' !in x && '&' !in x && TermToSeconds(x, limit) == Ok(v)
  }

  lemma PrintedTermText(space: char -> bool, t: Term, limit: real)
    requires Ordinary(space) && t.Valid()
    ensures TermText(space, t.Print(), limit, t.Value(limit))
  {
    TermShape(space, t);
    TermRoundTrip(t, limit);
  }

  /** The two-term forms, whatever the separator. */
  lemma CombineRoundTrip(
    space: char -> bool, x: string, v: real, p: string, q: string, y: string, w: real, sep: char, limit: real)
    requires Ordinary(space) && TermText(space, x, limit, v) && TermText(space, y, limit, w)
    requires Blank(space, p) && Blank(space, q) && (sep == '|' || sep == '&')
    ensures Combine(space, (x + p) + [sep] + (q + y), sep, limit) == Ok(if sep == '|' then Max(v, w) else Min(v, w))
  {
    hide TermToSeconds;
    var a, b := x + p, q + y;
    StripPadded(space, "", x, p);
    StripPadded(space, q, y, "");
    assert "" + x + p == a && q + y + "" == b;
    SplitPrefix(a, b, sep);
    SplitPrefix(b, "", sep);
  }

  lemma CombinedShape(space: char -> bool, x: string, p: string, q: string, y: string, sep: char)
    requires Ordinary(space) && (sep == '|' || sep == '&')
    requires x != [] && y != [] && Trimmed(space, x) && Trimmed(space, y)
    requires Blank(space, p) && Blank(space, q)
    requires '|' !in x && '&' !in x && '|' !in y && '&' !in y
    ensures var core := (x + p) + [sep] + (q + y);
            Trimmed(space, core) && sep in core && (if sep == '|' then '&' else '|') !in core
  {
    var core := (x + p) + [sep] + (q + y);
    assert core[0] == x[0] && core[|core| - 1] == y[|y| - 1] && core[|x + p|] == sep;
  }

  lemma PairRoundTrip(
    space: char -> bool, x: string, v: real, p: string, q: string, y: string, w: real, sep: char,
    left: string, right: string, limit: real)
    requires Ordinary(space) && TermText(space, x, limit, v) && TermText(space, y, limit, w)
    requires Blank(space, left) && Blank(space, p) && Blank(space, q) && Blank(space, right)
    requires (sep == '|' || sep == '&') && 0.0 < limit
    ensures var overshoot := if sep == '|' then Max(v, w) else Min(v, w);
            MakeTimeLimits(space, limit, left + ((x + p) + [sep] + (q + y)) + right)
            == Ok(TimeLimits(limit, overshoot, limit + overshoot))
  {
    hide Combine, TermToSeconds;
    CombineRoundTrip(space, x, v, p, q, y, w, sep, limit);
    CombinedShape(space, x, p, q, y, sep);
    StripPadded(space, left, (x + p) + [sep] + (q + y), right);
  }

  lemma SingleRoundTrip(space: char -> bool, t: Term, left: string, right: string, limit: real)
    requires Ordinary(space) && t.Valid() && Blank(space, left) && Blank(space, right) && 0.0 < limit
    ensures var v := t.Value(limit);
            MakeTimeLimits(space, limit, left + t.Print() + right) == Ok(TimeLimits(limit, v, limit + v))
  {
    PrintedTermText(space, t, limit);
    StripPadded(space, left, t.Print(), right);
  }

  lemma DoubleRoundTrip(space: char -> bool, t: Term, u: Term, sep: char, pad: seq<string>, limit: real, s: string)
    requires Ordinary(space) && t.Valid() && u.Valid() && Padding(space, pad) && 0.0 < limit
    requires (sep == '|' || sep == '&') && s == pad[0] + ((t.Print() + pad[1]) + [sep] + (pad[2] + u.Print())) + pad[3]
    ensures var v := if sep == '|' then Max(t.Value(limit), u.Value(limit)) else Min(t.Value(limit), u.Value(limit));
            MakeTimeLimits(space, limit, s) == Ok(TimeLimits(limit, v, limit + v))
  {
    hide MakeTimeLimits, TermToSeconds;
    assert Blank(space, pad[0]) && Blank(space, pad[1]) && Blank(space, pad[2]) && Blank(space, pad[3]);
    PrintedTermText(space, t, limit);
    PrintedTermText(space, u, limit);
    PairRoundTrip(space, t.Print(), t.Value(limit), pad[1], pad[2], u.Print(), u.Value(limit), sep, pad[0], pad[3],
                  limit);
  }

  /** Every printed spec is read back as its meaning, with any padding. */
  lemma SpecRoundTrip(space: char -> bool, spec: Spec, pad: seq<string>, limit: real, v: real)
    requires Ordinary(space) && spec.Valid() && Padding(space, pad) && 0.0 < limit && v == spec.Value(limit)
    ensures MakeTimeLimits(space, limit, spec.Print(pad)) == Ok(TimeLimits(limit, v, limit + v))
  {
    hide MakeTimeLimits;
    match spec
    case Single(t) => SingleRoundTrip(space, t, pad[0], pad[3], limit);
    case Larger(t, u) => DoubleRoundTrip(space, t, u, '|', pad, limit, spec.Print(pad));
    case Smaller(t, u) => DoubleRoundTrip(space, t, u, '&', pad, limit, spec.Print(pad));
  }

  lemma ShortFraction()
    ensures FractionValue("0004") == 0.0004 && DigitsValue("0") == 0
  {
    assert "0004"[1..] == "004" && "004"[1..] == "04" && "04"[1..] == "4" && "4"[1..] == "";
    assert "0"[..0] == "";
    assert FractionValue("4") == 0.4 && FractionValue("04") == 0.04;
  }

  /** A spec under half a millisecond. */
  lemma ShortSpec(space: char -> bool)
    requires Ordinary(space)
    ensures MakeTimeLimits(space, 1.0, "0.0004s") == Ok(TimeLimits(1.0, 0.0004, 1.0004))
  {
    var t := Seconds(Decimal("0", "0004"));
    ShortFraction();
    assert t.Value(1.0) == 0.0004;
    hide MakeTimeLimits, FractionValue, DigitsValue;
    assert "" + t.Print() + "" == "0.0004s";
    SingleRoundTrip(space, t, "", "", 1.0);
  }

  lemma ParsedPair(space: char -> bool, core: string, sep: char, limit: real)
    returns (t: Term, u: Term, l0: string, r0: string, l1: string, r1: string)
    requires Combine(space, core, sep, limit).Ok?
    ensures t.Valid() && u.Valid()
    ensures Blank(space, l0) && Blank(space, r0) && Blank(space, l1) && Blank(space, r1)
    ensures core == (l0 + t.Print() + r0) + [sep] + (l1 + u.Print() + r1)
  {
    SplitThenJoin(core, sep);
    var terms := SplitOn(core, sep);
    assert JoinWith(terms[1..], sep) == terms[1];
    l0, r0 := StripSplits(space, terms[0]);
    l1, r1 := StripSplits(space, terms[1]);
    t := ParsedTerm(Strip(space, terms[0]), limit);
    u := ParsedTerm(Strip(space, terms[1]), limit);
  }

  lemma ParsedCore(space: char -> bool, core: string, limit: real) returns (spec: Spec, pad: seq<string>)
    requires Overshoot(space, core, limit).Ok?
    ensures spec.Valid() && Padding(space, pad) && spec.Print(pad) == core
  {
    if '|' in core || '&' in core {
      var sep := if '|' in core then '|' else '&';
      var t, u, l0, r0, l1, r1 := ParsedPair(space, core, sep, limit);
      pad := [l0, r0, l1, r1];
      spec := if sep == '|' then Larger(t, u) else Smaller(t, u);
      Regroup(l0, t.Print(), r0, [sep], l1, u.Print(), r1);
    } else {
      var t := ParsedTerm(core, limit);
      pad := [[], [], [], []];
      spec := Single(t);
    }
  }

  lemma Regroup(l0: string, x: string, r0: string, m: string, l1: string, y: string, r1: string)
    ensures (l0 + x + r0) + m + (l1 + y + r1) == l0 + ((x + r0) + m + (l1 + y)) + r1
  {
  }

  lemma WiderPadding(body: string, p: string, q: string, left: string, right: string)
    ensures (left + p) + body + (q + right) == left + (p + body + q) + right
  {
  }

  lemma ParsedSpec(space: char -> bool, s: string, limit: real) returns (spec: Spec, pad: seq<string>)
    requires MakeTimeLimits(space, limit, s).Ok?
    ensures spec.Valid() && Padding(space, pad) && spec.Print(pad) == s
  {
    var left, right := StripSplits(space, s);
    var inner;
    spec, inner := ParsedCore(space, Strip(space, s), limit);
    WiderPadding(spec.Body(inner[1], inner[2]), inner[0], inner[3], left, right);
    pad := [left + inner[0], inner[1], inner[2], inner[3] + right];
    assert forall i :: 0 <= i < 4 ==> Blank(space, inner[i]);
  }

  /** The accepted texts are exactly the printed specs. */
  lemma AcceptsExactlyTheLanguage(space: char -> bool, limit: real, s: string)
    requires Ordinary(space) && 0.0 < limit
    ensures MakeTimeLimits(space, limit, s).Ok?
            <==> exists spec: Spec, pad :: spec.Valid() && Padding(space, pad) && spec.Print(pad) == s
  {
    if MakeTimeLimits(space, limit, s).Ok? {
      var spec, pad := ParsedSpec(space, s, limit);
    }
    forall spec: Spec, pad | spec.Valid() && Padding(space, pad) && spec.Print(pad) == s
      ensures MakeTimeLimits(space, limit, s).Ok?
    {
      SpecRoundTrip(space, spec, pad, limit, spec.Value(limit));
    }
  }

  // ----- bounds

  lemma NumberNotNegative(s: string)
    ensures ParseNumber(s).Some? ==> 0.0 <= ParseNumber(s).value
  {
  }

  lemma TermIsMonotone(term: string, limit: real, limit': real)
    requires 0.0 < limit <= limit'
    ensures TermToSeconds(term, limit).Ok? <==> TermToSeconds(term, limit').Ok?
    ensures TermToSeconds(term, limit).Ok? ==>
              0.0 <= TermToSeconds(term, limit).value <= TermToSeconds(term, limit').value
  {
    if term != [] {
      NumberNotNegative(term[..|term| - 1]);
      var n := ParseNumber(term[..|term| - 1]);
      if n.Some? {
        assert 0.0 <= limit * n.value <= limit' * n.value;
      }
    }
  }

  /** What is returned is valid, so the hard kill never precedes the limit, and it is
      monotone in the limit. */
  lemma LimitsAreValid(space: char -> bool, limit: real, limit': real, s: string)
    requires limit <= limit'
    ensures var r, r' := MakeTimeLimits(space, limit, s), MakeTimeLimits(space, limit', s);
            && (r.Ok? ==> r.value.Valid() && r.value.limit == limit && r'.Ok?)
            && (r.Ok? ==> r.value.overshoot <= r'.value.overshoot && r.value.hardKill <= r'.value.hardKill)
  {
    if 0.0 < limit {
      var spec := Strip(space, s);
      TermIsMonotone(spec, limit, limit');
      if '|' in spec || '&' in spec {
        var terms := SplitOn(spec, if '|' in spec then '|' else '&');
        if |terms| == 2 {
          TermIsMonotone(Strip(space, terms[0]), limit, limit');
          TermIsMonotone(Strip(space, terms[1]), limit, limit');
        }
      }
    }
  }

  /** The order of the operands does not matter: both texts are read as the same limits. */
  lemma OperandsCommute(space: char -> bool, spec: Spec, pad: seq<string>, limit: real) returns (limits: TimeLimits)
    requires Ordinary(space) && spec.Valid() && !spec.Single? && Padding(space, pad) && 0.0 < limit
    ensures MakeTimeLimits(space, limit, spec.Print(pad)) == Ok(limits)
    ensures MakeTimeLimits(space, limit, Swapped(spec).Print(pad)) == Ok(limits)
  {
    hide MakeTimeLimits;
    var v := spec.Value(limit);
    limits := TimeLimits(limit, v, limit + v);
    SwappedValue(spec, limit);
    SpecRoundTrip(space, spec, pad, limit, v);
    SpecRoundTrip(space, Swapped(spec), pad, limit, v);
  }

  lemma SwappedValue(spec: Spec, limit: real)
    requires spec.Valid() && !spec.Single?
    ensures Swapped(spec).Valid() && Swapped(spec).Value(limit) == spec.Value(limit)
  {
  }

  function Swapped(spec: Spec): Spec
    requires !spec.Single?
  {
    if spec.Larger? then Larger(spec.u, spec.t) else Smaller(spec.u, spec.t)
  }

  /** "Xs" is X seconds and "Y%" is Y hundredths of the limit. */
  lemma TermMeaning(n: Numeral, limit: real)
    requires n.Valid()
    ensures Seconds(n).Value(limit) == n.Value() && 100.0 * Percent(n).Value(limit) == n.Value() * limit
    ensures Seconds(n).Print() == n.Print() + "s" && Percent(n).Print() == n.Print() + "%"
  {
  }

  /** Why a text is refused. */
  lemma RefusedExactly(space: char -> bool, limit: real, s: string)
    ensures var r, core := MakeTimeLimits(space, limit, s), Strip(space, s);
            && (r == Err(LimitNotPositive) <==> limit <= 0.0)
            && (r == Err(EmptySpec) <==> 0.0 < limit && core == [])
            && (r == Err(BothSeparators) <==> 0.0 < limit && '|' in core && '&' in core)
            && (r == Err(NotTwoTerms) <==>
                  0.0 < limit && (|SplitOn(core, '|')| > 2 || |SplitOn(core, '&')| > 2)
                  && !('|' in core && '&' in core))
  {
    var core := Strip(space, s);
    SplitCounts(core, '|');
    SplitCounts(core, '&');
  }

  /** A separator that occurs splits; one that does not, does not. */
  lemma SplitCounts(s: string, sep: char)
    ensures |SplitOn(s, sep)| == 1 <==> sep !in s
  {
    if sep !in s {
      SplitPrefix(s, "", sep);
    } else {
      SplitThenJoin(s, sep);
      assert SplitOn(s, sep)[0] in SplitOn(s, sep);
    }
  }

  /** `&` <= either term <= `|`, and both are one of the terms. */
  lemma CombinedBounds(t: Term, u: Term, limit: real)
    requires t.Valid() && u.Valid()
    ensures Smaller(t, u).Value(limit) == t.Value(limit) || Smaller(t, u).Value(limit) == u.Value(limit)
    ensures Larger(t, u).Value(limit) == t.Value(limit) || Larger(t, u).Value(limit) == u.Value(limit)
    ensures Smaller(t, u).Value(limit) <= Single(t).Value(limit) <= Larger(t, u).Value(limit)
    ensures Smaller(t, u).Value(limit) <= Single(u).Value(limit) <= Larger(t, u).Value(limit)
  {
  }
}
