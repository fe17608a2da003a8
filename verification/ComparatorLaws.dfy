/** What the default comparator promises, over all texts. */
module ComparatorLaws {
  import opened Options
  import opened CompareFlags
  import opened Tokens
  import opened Comparator

  function Words(lex: Lexicon, s: string): seq<string> { Split(lex.space, s) }

  /** Acceptance in token mode, whatever `spaceChangeSensitive` says. */
  predicate TokensAccepted(lex: Lexicon, flags: CompareFlags, team: string, answer: string) {
    TokensOutcome(lex, flags, Words(lex, team), Words(lex, answer)).accepted
  }

  predicate ExactAccepted(lex: Lexicon, flags: CompareFlags, team: string, answer: string) {
    ExactOutcome(Normal(lex, flags, team), Normal(lex, flags, answer)).accepted
  }

  // ----- token mode

  ghost predicate Pointwise(lex: Lexicon, flags: CompareFlags, team: seq<string>, answer: seq<string>) {
    |team| == |answer| && forall i :: 0 <= i < |team| ==> TokenMatches(lex, flags, team[i], answer[i])
  }

  /** Token mode accepts exactly the pointwise matching outputs, and otherwise reports the
      least mismatching token, or the counts when one output extends the other. */
  lemma TokenModeIsPointwise(lex: Lexicon, flags: CompareFlags, team: seq<string>, answer: seq<string>)
    ensures var r := TokensOutcome(lex, flags, team, answer);
            && (r.accepted <==> Pointwise(lex, flags, team, answer))
            && (r.accepted <==> r.message.NoMessage?)
            && (r.message.TokenDiffers? ==>
                  var k := r.message.index - 1;
                  && 0 <= k < |team| && k < |answer| && !TokenMatches(lex, flags, team[k], answer[k])
                  && r.message.expected == answer[k] && r.message.actual == team[k]
                  && forall j :: 0 <= j < k ==> TokenMatches(lex, flags, team[j], answer[j]))
            && (r.message.CountDiffers? <==>
                  |team| != |answer|
                  && forall j :: 0 <= j < |team| && j < |answer| ==> TokenMatches(lex, flags, team[j], answer[j]))
  {
    var k := FirstMismatch(lex, flags, team, answer, 0);
  }

  /** Verdict and message depend only on the words: any re-spacing of either output, with
      blanks of any kind and number, leaves them unchanged. */
  lemma RespacingChangesNothing(
    lex: Lexicon, flags: CompareFlags, team: string, answer: string, gaps: seq<string>, gaps': seq<string>)
    requires !flags.spaceChangeSensitive
    requires Spacing(lex.space, Words(lex, team), gaps) && Spacing(lex.space, Words(lex, answer), gaps')
    ensures OutputOutcome(lex, Render(Words(lex, team), gaps), Render(Words(lex, answer), gaps'), flags)
            == OutputOutcome(lex, team, answer, flags)
  {
    SplitOfRender(lex.space, Words(lex, team), gaps);
    SplitOfRender(lex.space, Words(lex, answer), gaps');
  }

  /** Without float flags acceptance is an equivalence relation, in either mode. */
  lemma AcceptanceIsAnEquivalence(lex: Lexicon, flags: CompareFlags, s: string, t: string, u: string)
    requires !flags.CompareFloats()
    ensures OutputOutcome(lex, s, s, flags).accepted
    ensures OutputOutcome(lex, s, t, flags).accepted ==> OutputOutcome(lex, t, s, flags).accepted
    ensures OutputOutcome(lex, s, t, flags).accepted && OutputOutcome(lex, t, u, flags).accepted
            ==> OutputOutcome(lex, s, u, flags).accepted
  {
    var a, b, c := Words(lex, s), Words(lex, t), Words(lex, u);
    TokenModeIsPointwise(lex, flags, a, a);
    TokenModeIsPointwise(lex, flags, a, b);
    TokenModeIsPointwise(lex, flags, b, a);
    TokenModeIsPointwise(lex, flags, b, c);
    TokenModeIsPointwise(lex, flags, a, c);
  }

  // ----- exact mode

  /** Exact mode's diagnostics are truthful: the character named is the first difference,
      and the lengths are reported only when one text is a proper prefix of the other. */
  lemma ExactDiagnosticsAreTrue(left: string, right: string)
    ensures var r := ExactOutcome(left, right);
            && (r.accepted <==> left == right)
            && (r.message.CharDiffers? ==>
                  var k := r.message.position - 1;
                  && 0 <= k < |left| && k < |right| && left[..k] == right[..k] && left[k] != right[k]
                  && r.message.expectedChar == right[k] && r.message.actualChar == left[k])
            && (r.message.LengthDiffers? <==> left < right || right < left)
            && (r.message.LengthDiffers? ==> r.message.expectedLength == |right| && r.message.actualLength == |left|)
  {
    var k := FirstDifference(left, right, 0);
    assert left[..k] == right[..k];
    if k == |left| { assert left[..k] == left; }
    if k == |right| { assert right[..k] == right; }
  }

  // ----- exact mode refines token mode

  ghost predicate HasNaN(lex: Lexicon, words: seq<string>) {
    exists i :: 0 <= i < |words| && lex.read(words[i]) == Some(NaN)
  }

  /** Exact acceptance means equal words, up to case when case is ignored. */
  lemma ExactWordsAgree(lex: Lexicon, flags: CompareFlags, team: string, answer: string)
    requires lex.Valid() && ExactAccepted(lex, flags, team, answer)
    ensures var t, a := Words(lex, team), Words(lex, answer);
            |t| == |a| && forall i :: 0 <= i < |t| ==> SameText(lex, flags, t[i], a[i])
  {
    var s, r := StripNewlines(team), StripNewlines(answer);
    SplitOfStripped(lex.space, team);
    SplitOfStripped(lex.space, answer);
    if !flags.caseSensitive {
      SplitOfLower(lex.space, lex.lower, s);
      SplitOfLower(lex.space, lex.lower, r);
      var t, a := Words(lex, team), Words(lex, answer);
      assert LowerWords(lex.lower, t) == LowerWords(lex.lower, a);
      assert forall i :: 0 <= i < |t| ==> LowerWords(lex.lower, t)[i] == LowerText(lex.lower, t[i]);
    }
  }

  lemma SameTextReadsTheSame(lex: Lexicon, flags: CompareFlags, t: string, a: string)
    requires lex.Valid() && SameText(lex, flags, t, a)
    ensures lex.read(t) == lex.read(a)
  {
    assert lex.read(LowerText(lex.lower, t)) == lex.read(t);
    assert lex.read(LowerText(lex.lower, a)) == lex.read(a);
  }

  /** Tokens that agree as texts match under any float flags exactly when they are not NaN. */
  lemma SameTextMatchesUnlessNaN(lex: Lexicon, flags: CompareFlags, t: string, a: string)
    requires lex.Valid() && SameText(lex, flags, t, a)
    ensures TokenMatches(lex, flags, t, a) <==> !(flags.CompareFloats() && lex.read(a) == Some(NaN))
  {
    SameTextReadsTheSame(lex, flags, t, a);
  }

  lemma AgreeingWordsAccepted(lex: Lexicon, flags: CompareFlags, t: seq<string>, a: seq<string>)
    requires lex.Valid() && |t| == |a| && forall i :: 0 <= i < |t| ==> SameText(lex, flags, t[i], a[i])
    ensures TokensOutcome(lex, flags, t, a).accepted <==> !(flags.CompareFloats() && HasNaN(lex, a))
  {
    forall i | 0 <= i < |t|
      ensures TokenMatches(lex, flags, t[i], a[i]) <==> !(flags.CompareFloats() && lex.read(a[i]) == Some(NaN))
    {
      SameTextMatchesUnlessNaN(lex, flags, t[i], a[i]);
    }
    TokenModeIsPointwise(lex, flags, t, a);
  }

  /** What space-sensitive comparison accepts, token comparison accepts with the same case
      flag; with float flags exactly when no token of the answer reads as NaN. */
  lemma ExactRefinesTokens(lex: Lexicon, flags: CompareFlags, team: string, answer: string)
    requires lex.Valid() && ExactAccepted(lex, flags, team, answer)
    ensures TokensAccepted(lex, flags, team, answer)
            <==> !(flags.CompareFloats() && HasNaN(lex, Words(lex, answer)))
  {
    ExactWordsAgree(lex, flags, team, answer);
    AgreeingWordsAccepted(lex, flags, Words(lex, team), Words(lex, answer));
  }

  // ----- tolerances

  /** `y` tolerates whatever `x` tolerates. */
  predicate AtMost(x: Option<Number>, y: Option<Number>) {
    x.None? || x.value.NaN? || x.value.NegInf?
    || (y.Some? && (y.value.PosInf? || (x.value.Fin? && y.value.Fin? && x.value.value <= y.value.value)))
  }

  predicate Looser(flags: CompareFlags, flags': CompareFlags) {
    && flags'.caseSensitive == flags.caseSensitive
    && AtMost(flags.absolute, flags'.absolute) && AtMost(flags.relative, flags'.relative)
  }

  lemma LooserKeepsMatch(lex: Lexicon, flags: CompareFlags, flags': CompareFlags, t: string, a: string)
    requires Looser(flags, flags') && flags.CompareFloats() && flags'.CompareFloats()
    requires TokenMatches(lex, flags, t, a)
    ensures TokenMatches(lex, flags', t, a)
  {
  }

  /** Raising either tolerance keeps every acceptance. */
  lemma RaisingToleranceKeepsAcceptance(
    lex: Lexicon, flags: CompareFlags, flags': CompareFlags, team: string, answer: string)
    requires Looser(flags, flags') && flags.CompareFloats() && flags'.CompareFloats()
    requires TokensAccepted(lex, flags, team, answer)
    ensures TokensAccepted(lex, flags', team, answer)
  {
    var t, a := Words(lex, team), Words(lex, answer);
    TokenModeIsPointwise(lex, flags, t, a);
    forall i | 0 <= i < |t| ensures TokenMatches(lex, flags', t[i], a[i]) {
      LooserKeepsMatch(lex, flags, flags', t[i], a[i]);
    }
    TokenModeIsPointwise(lex, flags', t, a);
  }

  /** Turning float mode on only widens acceptance, except for NaN tokens: an output
      accepted as text stays accepted exactly when the answer has no NaN. */
  lemma FloatModeWidensUnlessNaN(lex: Lexicon, flags: CompareFlags, floats: CompareFlags, team: string, answer: string)
    requires lex.Valid() && !flags.CompareFloats() && floats.CompareFloats()
    requires floats.caseSensitive == flags.caseSensitive
    requires TokensAccepted(lex, flags, team, answer)
    ensures TokensAccepted(lex, floats, team, answer) <==> !HasNaN(lex, Words(lex, answer))
  {
    var t, a := Words(lex, team), Words(lex, answer);
    TokenModeIsPointwise(lex, flags, t, a);
    forall i | 0 <= i < |t| ensures SameText(lex, floats, t[i], a[i]) {
      assert TokenMatches(lex, flags, t[i], a[i]);
    }
    AgreeingWordsAccepted(lex, floats, t, a);
  }

  function AbsoluteOnly(caseSensitive: bool, e: real): CompareFlags {
    CompareFlags(caseSensitive, false, Some(Fin(e)), None)
  }

  lemma MatchesCompose(lex: Lexicon, cs: bool, e1: real, e2: real, t: string, m: string, a: string)
    requires lex.Valid() && 0.0 <= e1 && 0.0 <= e2
    requires TokenMatches(lex, AbsoluteOnly(cs, e1), t, m) && TokenMatches(lex, AbsoluteOnly(cs, e2), m, a)
    ensures TokenMatches(lex, AbsoluteOnly(cs, e1 + e2), t, a)
  {
    if lex.read(t).None? || lex.read(m).None? {
      SameTextReadsTheSame(lex, AbsoluteOnly(cs, e1), t, m);
    }
    if lex.read(m).None? || lex.read(a).None? {
      SameTextReadsTheSame(lex, AbsoluteOnly(cs, e2), m, a);
    }
  }

  /** Absolute errors add up over whole outputs: acceptance within `e1` and then within `e2`
      gives acceptance within `e1 + e2`. */
  lemma AbsoluteErrorsAdd(lex: Lexicon, cs: bool, e1: real, e2: real, team: string, middle: string, answer: string)
    requires lex.Valid() && 0.0 <= e1 && 0.0 <= e2
    requires TokensAccepted(lex, AbsoluteOnly(cs, e1), team, middle)
    requires TokensAccepted(lex, AbsoluteOnly(cs, e2), middle, answer)
    ensures TokensAccepted(lex, AbsoluteOnly(cs, e1 + e2), team, answer)
  {
    var t, m, a := Words(lex, team), Words(lex, middle), Words(lex, answer);
    TokenModeIsPointwise(lex, AbsoluteOnly(cs, e1), t, m);
    TokenModeIsPointwise(lex, AbsoluteOnly(cs, e2), m, a);
    forall i | 0 <= i < |t| ensures TokenMatches(lex, AbsoluteOnly(cs, e1 + e2), t[i], a[i]) {
      MatchesCompose(lex, cs, e1, e2, t[i], m[i], a[i]);
    }
    TokenModeIsPointwise(lex, AbsoluteOnly(cs, e1 + e2), t, a);
  }

  // ----- the two modes, and one token

  /** Equal characters, up to case when case is ignored. */
  predicate SameChar(lex: Lexicon, flags: CompareFlags, c: char, d: char) {
    if flags.caseSensitive then c == d else lex.lower(c) == lex.lower(d)
  }

  lemma SameTextExactly(lex: Lexicon, flags: CompareFlags, s: string, t: string)
    ensures SameText(lex, flags, s, t)
            <==> |s| == |t| && forall i :: 0 <= i < |s| ==> SameChar(lex, flags, s[i], t[i])
  {
    var l, m := LowerText(lex.lower, s), LowerText(lex.lower, t);
    assert l == m <==> |l| == |m| && forall i :: 0 <= i < |l| ==> l[i] == m[i];
  }

  lemma NormalExactly(lex: Lexicon, flags: CompareFlags, s: string, t: string)
    ensures var u, v := StripNewlines(s), StripNewlines(t);
            Normal(lex, flags, s) == Normal(lex, flags, t)
            <==> |u| == |v| && forall i :: 0 <= i < |u| ==> SameChar(lex, flags, u[i], v[i])
  {
    SameTextExactly(lex, flags, StripNewlines(s), StripNewlines(t));
  }

  /** The flag chooses the mode: `space_change_sensitive` compares the texts character by
      character up to trailing newlines, and otherwise the words are compared one by one. */
  lemma FlagChoosesTheMode(lex: Lexicon, flags: CompareFlags, team: string, answer: string)
    ensures var r := OutputOutcome(lex, team, answer, flags);
            if flags.spaceChangeSensitive then
              var u, v := StripNewlines(team), StripNewlines(answer);
              r.accepted <==> |u| == |v| && forall i :: 0 <= i < |u| ==> SameChar(lex, flags, u[i], v[i])
            else
              r.accepted <==> Pointwise(lex, flags, Words(lex, team), Words(lex, answer))
  {
    NormalExactly(lex, flags, team, answer);
    ExactDiagnosticsAreTrue(Normal(lex, flags, team), Normal(lex, flags, answer));
    TokenModeIsPointwise(lex, flags, Words(lex, team), Words(lex, answer));
  }

  /** The messages of the comparator are those of its mode: each names the first place where
      the two outputs differ, with what was expected and what was found. */
  lemma MessagesAreTrue(lex: Lexicon, flags: CompareFlags, team: string, answer: string)
    ensures var r := OutputOutcome(lex, team, answer, flags);
            var u, v := Normal(lex, flags, team), Normal(lex, flags, answer);
            var t, a := Words(lex, team), Words(lex, answer);
            match r.message
            case NoMessage => r.accepted
            case CharDiffers(position, expected, actual) =>
              && !r.accepted && flags.spaceChangeSensitive
              && 0 < position <= |u| && position <= |v| && u[..position - 1] == v[..position - 1]
              && expected == v[position - 1] && actual == u[position - 1] && expected != actual
            case LengthDiffers(expected, actual) =>
              && !r.accepted && flags.spaceChangeSensitive && (u < v || v < u) && expected == |v| && actual == |u|
            case TokenDiffers(index, expected, actual) =>
              && !r.accepted && !flags.spaceChangeSensitive
              && 0 < index <= |t| && index <= |a| && expected == a[index - 1] && actual == t[index - 1]
              && !TokenMatches(lex, flags, actual, expected)
              && forall i :: 0 <= i < index - 1 ==> TokenMatches(lex, flags, t[i], a[i])
            case CountDiffers(expected, actual) =>
              && !r.accepted && !flags.spaceChangeSensitive && expected == |a| && actual == |t| && |t| != |a|
              && forall i :: 0 <= i < |t| && i < |a| ==> TokenMatches(lex, flags, t[i], a[i])
  {
    if flags.spaceChangeSensitive {
      ExactDiagnosticsAreTrue(Normal(lex, flags, team), Normal(lex, flags, answer));
    } else {
      TokenModeIsPointwise(lex, flags, Words(lex, team), Words(lex, answer));
    }
  }

  /** `difference` is at most `tolerance` times `scale`, for a scale that is not zero. */
  predicate Tolerated(difference: real, tolerance: Option<Number>, scale: real) {
    && tolerance.Some?
    && (tolerance.value.PosInf? || (tolerance.value.Fin? && difference <= tolerance.value.value * scale))
  }

  lemma QuotientAndProduct(x: real, y: real, z: real)
    requires 0.0 < y
    ensures x / y <= z <==> x <= z * y
  {
    var q := x / y;
    assert q * y == x;
    if q <= z { assert q * y <= z * y; } else { assert z * y < q * y; }
  }

  /** When two tokens match, completely.  Numbers are compared only under a float flag, and
      then a NaN matches nothing, an infinity only itself, and finite numbers within the
      absolute tolerance, or within the relative one times the answer unless that is zero. */
  lemma TokenMatchesExactly(lex: Lexicon, flags: CompareFlags, team: string, answer: string)
    ensures var t, a := lex.read(team), lex.read(answer);
            TokenMatches(lex, flags, team, answer) <==>
              if (flags.absolute.Some? || flags.relative.Some?) && t.Some? && a.Some? then
                && t.value != NaN && a.value != NaN
                && (|| t.value == a.value
                    || (t.value.Fin? && a.value.Fin?
                        && var difference := Abs(t.value.value - a.value.value);
                           || Tolerated(difference, flags.absolute, 1.0)
                           || (a.value.value != 0.0 && Tolerated(difference, flags.relative, Abs(a.value.value)))))
              else SameText(lex, flags, team, answer)
  {
    var t, a := lex.read(team), lex.read(answer);
    if t.Some? && a.Some? && t.value.Fin? && a.value.Fin? && a.value.value != 0.0
       && flags.relative.Some? && flags.relative.value.Fin?
    {
      QuotientAndProduct(Abs(t.value.value - a.value.value), Abs(a.value.value), flags.relative.value.value);
    }
  }
}
