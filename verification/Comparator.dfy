/**
 The default output comparator: `_floats_match`, `_compare_tokens`, `_compare_exact` and
 `compare_output` of src/icpc_verify/compare.py (the default validator of the Kattis
 Problem Package Format, "Output Validators").
 */
module Comparator {
  import opened Options
  import opened CompareFlags
  import opened Tokens

  /** What the comparator takes from its host language. */
  datatype Lexicon = Lexicon(space: Space, lower: char -> char, read: Reader) {
    /** Lower-casing keeps white space and newlines apart from the rest, and a text
        reads as the same number in any case. */
    ghost predicate Valid() {
      && KeepsSpace(space, lower) && space('\n')
      && (forall c :: lower(c) == '\n' <==> c == '\n')
      && (forall s :: read(LowerText(lower, s)) == read(s))
    }
  }

  datatype Message =
    | NoMessage
    | TokenDiffers(index: nat, expected: string, actual: string)
    | CountDiffers(expectedCount: nat, actualCount: nat)
    | CharDiffers(position: nat, expectedChar: char, actualChar: char)
    | LengthDiffers(expectedLength: nat, actualLength: nat)

  datatype Outcome = Outcome(accepted: bool, message: Message)

  const ACCEPT := Outcome(true, NoMessage)

  function Reject(message: Message): Outcome { Outcome(false, message) }

  // ----- one token

  function Abs(x: real): (r: real)
    ensures 0.0 <= r && (r == x || r == -x)
  {
    if x < 0.0 then -x else x
  }

  /** `diff <= tolerance` for a finite difference. */
  predicate Within(diff: real, tolerance: Number) {
    match tolerance
    case NaN => false
    case NegInf => false
    case PosInf => true
    case Fin(t) => diff <= t
  }

  /** `None` when one of the texts is not a number. */
  function FloatsMatch(read: Reader, team: string, answer: string, flags: CompareFlags): Option<bool> {
    if read(team).None? || read(answer).None? then None
    else
      var t, a := read(team).value, read(answer).value;
      if t.NaN? || a.NaN? then Some(false)
      else if t == a then Some(true)
      else if !t.Fin? || !a.Fin? then Some(false)
      else
        var diff := Abs(t.value - a.value);
        if flags.absolute.Some? && Within(diff, flags.absolute.value) then Some(true)
        else if flags.relative.Some? && a.value != 0.0
        then Some(Within(diff / Abs(a.value), flags.relative.value))
        else Some(false)
  }

  predicate SameText(lex: Lexicon, flags: CompareFlags, team: string, answer: string) {
    if flags.caseSensitive then team == answer else LowerText(lex.lower, team) == LowerText(lex.lower, answer)
  }

  predicate TokenMatches(lex: Lexicon, flags: CompareFlags, team: string, answer: string) {
    var numeric := if flags.CompareFloats() then FloatsMatch(lex.read, team, answer, flags) else None;
    if numeric.Some? then numeric.value else SameText(lex, flags, team, answer)
  }

  // ----- all tokens

  function MinLength(s: nat, t: nat): nat { if s < t then s else t }

  /** The first index from `i` on at which both sequences have tokens that differ. */
  function FirstMismatch(lex: Lexicon, flags: CompareFlags, team: seq<string>, answer: seq<string>, i: nat): (k: nat)
    requires i <= MinLength(|team|, |answer|)
    ensures i <= k <= MinLength(|team|, |answer|)
    ensures forall j :: i <= j < k ==> TokenMatches(lex, flags, team[j], answer[j])
    ensures k < MinLength(|team|, |answer|) ==> !TokenMatches(lex, flags, team[k], answer[k])
    decreases MinLength(|team|, |answer|) - i
  {
    if i == MinLength(|team|, |answer|) || !TokenMatches(lex, flags, team[i], answer[i]) then i
    else FirstMismatch(lex, flags, team, answer, i + 1)
  }

  function TokensOutcome(lex: Lexicon, flags: CompareFlags, team: seq<string>, answer: seq<string>): Outcome {
    var k := FirstMismatch(lex, flags, team, answer, 0);
    if k < MinLength(|team|, |answer|) then Reject(TokenDiffers(k + 1, answer[k], team[k]))
    else if |team| != |answer| then Reject(CountDiffers(|answer|, |team|))
    else ACCEPT
  }

  method CompareTokens(lex: Lexicon, team: string, answer: string, flags: CompareFlags) returns (r: Outcome)
    ensures r == TokensOutcome(lex, flags, Split(lex.space, team), Split(lex.space, answer))
  {
    var teamTokens, answerTokens := Split(lex.space, team), Split(lex.space, answer);
    var index := 1;
    while index <= |teamTokens| && index <= |answerTokens|
      invariant 1 <= index <= MinLength(|teamTokens|, |answerTokens|) + 1
      invariant FirstMismatch(lex, flags, teamTokens, answerTokens, 0)
                == FirstMismatch(lex, flags, teamTokens, answerTokens, index - 1)
    {
      var t, a := teamTokens[index - 1], answerTokens[index - 1];
      if flags.CompareFloats() {
        var verdict := FloatsMatch(lex.read, t, a, flags);
        if verdict == Some(true) {
          index := index + 1;
          continue;
        }
        if verdict == Some(false) {
          return Reject(TokenDiffers(index, a, t));
        }
      }
      var left, right := t, a;
      if !flags.caseSensitive {
        left, right := LowerText(lex.lower, t), LowerText(lex.lower, a);
      }
      if left != right {
        return Reject(TokenDiffers(index, a, t));
      }
      index := index + 1;
    }
    if |teamTokens| != |answerTokens| {
      return Reject(CountDiffers(|answerTokens|, |teamTokens|));
    }
    return ACCEPT;
  }

  // ----- exact comparison

  /** The text that exact mode compares. */
  function Normal(lex: Lexicon, flags: CompareFlags, s: string): string {
    var stripped := StripNewlines(s);
    if flags.caseSensitive then stripped else LowerText(lex.lower, stripped)
  }

  /** The first index from `i` on at which both texts have characters that differ. */
  function FirstDifference(left: string, right: string, i: nat): (k: nat)
    requires i <= MinLength(|left|, |right|)
    ensures i <= k <= MinLength(|left|, |right|)
    ensures forall j :: i <= j < k ==> left[j] == right[j]
    ensures k < MinLength(|left|, |right|) ==> left[k] != right[k]
    decreases MinLength(|left|, |right|) - i
  {
    if i == MinLength(|left|, |right|) || left[i] != right[i] then i else FirstDifference(left, right, i + 1)
  }

  function ExactOutcome(left: string, right: string): Outcome {
    var k := FirstDifference(left, right, 0);
    if left == right then ACCEPT
    else if k < MinLength(|left|, |right|) then Reject(CharDiffers(k + 1, right[k], left[k]))
    else Reject(LengthDiffers(|right|, |left|))
  }

  /** The scan for the first character that differs, once the texts are known to. */
  method ScanExact(left: string, right: string) returns (r: Outcome)
    requires left != right
    ensures r == ExactOutcome(left, right)
  {
    var index := 1;
    while index <= |left| && index <= |right|
      invariant 1 <= index <= MinLength(|left|, |right|) + 1
      invariant FirstDifference(left, right, 0) == FirstDifference(left, right, index - 1)
    {
      if left[index - 1] != right[index - 1] {
        return Reject(CharDiffers(index, right[index - 1], left[index - 1]));
      }
      index := index + 1;
    }
    return Reject(LengthDiffers(|right|, |left|));
  }

  method CompareExact(lex: Lexicon, team: string, answer: string, flags: CompareFlags) returns (r: Outcome)
    ensures r == ExactOutcome(Normal(lex, flags, team), Normal(lex, flags, answer))
  {
    var left, right := StripNewlines(team), StripNewlines(answer);
    if !flags.caseSensitive {
      left, right := LowerText(lex.lower, left), LowerText(lex.lower, right);
    }
    if left == right {
      return ACCEPT;
    }
    r := ScanExact(left, right);
  }

  // ----- the comparator

  function OutputOutcome(lex: Lexicon, team: string, answer: string, flags: CompareFlags): Outcome {
    if flags.spaceChangeSensitive then ExactOutcome(Normal(lex, flags, team), Normal(lex, flags, answer))
    else TokensOutcome(lex, flags, Split(lex.space, team), Split(lex.space, answer))
  }

  method CompareOutput(lex: Lexicon, team: string, answer: string, flags: CompareFlags) returns (r: Outcome)
    ensures r == OutputOutcome(lex, team, answer, flags)
  {
    if flags.spaceChangeSensitive {
      r := CompareExact(lex, team, answer, flags);
    } else {
      r := CompareTokens(lex, team, answer, flags);
    }
  }
}
