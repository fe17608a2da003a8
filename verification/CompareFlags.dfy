/**
 The flags of the default output validator: `parse_compare_flags` of
 src/icpc_verify/compare.py.  Numbers are what `float()` can return; the reading of a
 text as a number is a parameter.
 */
module CompareFlags {
  import opened Options

  datatype Number = NaN | NegInf | PosInf | Fin(value: real)

  type Reader = string -> Option<Number>

  datatype CompareFlags = CompareFlags(
    caseSensitive: bool, spaceChangeSensitive: bool, absolute: Option<Number>, relative: Option<Number>)
  {
    predicate CompareFloats() { absolute.Some? || relative.Some? }
  }

  datatype FlagError = UnknownFlag(flag: string) | NoValue(flag: string) | NotANumber(flag: string, text: string)

  datatype Result = Ok(flags: CompareFlags) | Err(error: FlagError)

  const CASE := "case_sensitive"
  const SPACE := "space_change_sensitive"
  const BOTH := "float_tolerance"
  const ABSOLUTE := "float_absolute_tolerance"
  const RELATIVE := "float_relative_tolerance"

  const DEFAULTS := CompareFlags(false, false, None, None)

  predicate IsTolerance(flag: string) { flag == BOTH || flag == ABSOLUTE || flag == RELATIVE }

  // ----- specification: one flag after the other

  function WithTolerance(acc: CompareFlags, flag: string, value: Number): CompareFlags {
    acc.(absolute := if flag == RELATIVE then acc.absolute else Some(value),
         relative := if flag == ABSOLUTE then acc.relative else Some(value))
  }

  function ParseFrom(read: Reader, items: seq<string>, acc: CompareFlags): Result
    decreases |items|
  {
    if items == [] then Ok(acc)
    else if items[0] == CASE then ParseFrom(read, items[1..], acc.(caseSensitive := true))
    else if items[0] == SPACE then ParseFrom(read, items[1..], acc.(spaceChangeSensitive := true))
    else if !IsTolerance(items[0]) then Err(UnknownFlag(items[0]))
    else if |items| == 1 then Err(NoValue(items[0]))
    else if read(items[1]).None? then Err(NotANumber(items[0], items[1]))
    else ParseFrom(read, items[2..], WithTolerance(acc, items[0], read(items[1]).value))
  }

  function Parse(read: Reader, items: seq<string>): Result { ParseFrom(read, items, DEFAULTS) }

  // ----- the program: a scan with four local variables

  method ParseCompareFlags(read: Reader, items: seq<string>) returns (r: Result)
    ensures r == Parse(read, items)
  {
    var caseSensitive, spaceChangeSensitive := false, false;
    var absolute: Option<Number>, relative: Option<Number> := None, None;
    var i := 0;
    while i < |items|
      invariant 0 <= i <= |items|
      invariant Parse(read, items)
                == ParseFrom(read, items[i..], CompareFlags(caseSensitive, spaceChangeSensitive, absolute, relative))
    {
      var flag := items[i];
      if flag == CASE || flag == SPACE {
        if flag == CASE {
          caseSensitive := true;
        } else {
          spaceChangeSensitive := true;
        }
        i := i + 1;
        continue;
      }
      if IsTolerance(flag) {
        if |items| <= i + 1 {
          return Err(NoValue(flag));
        }
        var value := read(items[i + 1]);
        if value.None? {
          return Err(NotANumber(flag, items[i + 1]));
        }
        assert items[i..][2..] == items[i + 2..];
        if flag == BOTH || flag == ABSOLUTE {
          absolute := value;
        }
        if flag == BOTH || flag == RELATIVE {
          relative := value;
        }
        i := i + 2;
        continue;
      }
      return Err(UnknownFlag(flag));
    }
    return Ok(CompareFlags(caseSensitive, spaceChangeSensitive, absolute, relative));
  }

  // ----- parsing is compositional

  /** `a` overridden by `b`: booleans are or-ed, a tolerance given by `b` wins. */
  function Override(a: CompareFlags, b: CompareFlags): CompareFlags {
    CompareFlags(
      a.caseSensitive || b.caseSensitive, a.spaceChangeSensitive || b.spaceChangeSensitive,
      if b.absolute.Some? then b.absolute else a.absolute,
      if b.relative.Some? then b.relative else a.relative)
  }

  function OverrideResult(a: CompareFlags, r: Result): Result {
    if r.Ok? then Ok(Override(a, r.flags)) else r
  }

  lemma {:induction false} AccumulatorOverridden(read: Reader, items: seq<string>, a: CompareFlags, acc: CompareFlags)
    ensures ParseFrom(read, items, Override(a, acc)) == OverrideResult(a, ParseFrom(read, items, acc))
    decreases |items|
  {
    if items == [] {
    } else if items[0] == CASE {
      AccumulatorOverridden(read, items[1..], a, acc.(caseSensitive := true));
    } else if items[0] == SPACE {
      AccumulatorOverridden(read, items[1..], a, acc.(spaceChangeSensitive := true));
    } else if IsTolerance(items[0]) && 1 < |items| && read(items[1]).Some? {
      var value := read(items[1]).value;
      AccumulatorOverridden(read, items[2..], a, WithTolerance(acc, items[0], value));
      assert WithTolerance(Override(a, acc), items[0], value) == Override(a, WithTolerance(acc, items[0], value));
    }
  }

  lemma {:induction false} ParseAppended(read: Reader, a: seq<string>, b: seq<string>, acc: CompareFlags)
    ensures var r := ParseFrom(read, a, acc);
            && (r.Ok? ==> ParseFrom(read, a + b, acc) == ParseFrom(read, b, r.flags))
            && (r.Err? && !r.error.NoValue? ==> ParseFrom(read, a + b, acc) == r)
    decreases |a|
  {
    if a == [] {
      assert a + b == b;
    } else if a[0] == CASE || a[0] == SPACE {
      assert (a + b)[1..] == a[1..] + b;
      ParseAppended(read, a[1..], b,
                    if a[0] == CASE then acc.(caseSensitive := true) else acc.(spaceChangeSensitive := true));
    } else if IsTolerance(a[0]) && 1 < |a| && read(a[1]).Some? {
      assert (a + b)[2..] == a[2..] + b;
      ParseAppended(read, a[2..], b, WithTolerance(acc, a[0], read(a[1]).value));
    }
  }

  /**
   When `a` parses, `a + b` parses exactly as `b` does, and to `a` overridden by `b`.
   When `a` fails, `a + b` fails in the same way, unless `a` only lacked a last value.
   */
  lemma ParsingIsCompositional(read: Reader, a: seq<string>, b: seq<string>)
    ensures var r := Parse(read, a);
            && (r.Ok? ==> Parse(read, a + b) == OverrideResult(r.flags, Parse(read, b)))
            && (r.Err? && !r.error.NoValue? ==> Parse(read, a + b) == r)
  {
    ParseAppended(read, a, b, DEFAULTS);
    var r := Parse(read, a);
    if r.Ok? {
      AccumulatorOverridden(read, b, r.flags, DEFAULTS);
      assert Override(r.flags, DEFAULTS) == r.flags;
    }
  }

  // ----- every value of the flags can be written down

  function Tolerance(flag: string, text: Number -> string, value: Option<Number>): seq<string> {
    if value.Some? then [flag, text(value.value)] else []
  }

  function Print(text: Number -> string, flags: CompareFlags): seq<string> {
    (if flags.caseSensitive then [CASE] else [])
    + (if flags.spaceChangeSensitive then [SPACE] else [])
    + Tolerance(ABSOLUTE, text, flags.absolute)
    + Tolerance(RELATIVE, text, flags.relative)
  }

  lemma NamesDiffer()
    ensures CASE != SPACE && !IsTolerance(CASE) && !IsTolerance(SPACE)
    ensures ABSOLUTE != RELATIVE && BOTH != ABSOLUTE && BOTH != RELATIVE
  {
    assert CASE[0] == 'c' && SPACE[0] == 's' && BOTH[0] == ABSOLUTE[0] == RELATIVE[0] == 'f';
    assert BOTH[6] == 't' && ABSOLUTE[6] == 'a' && RELATIVE[6] == 'r';
  }

  lemma OneFlag(read: Reader, text: Number -> string, value: Option<Number>)
    requires value.Some? ==> read(text(value.value)) == value
    ensures Parse(read, []) == Ok(DEFAULTS)
    ensures Parse(read, [CASE]) == Ok(DEFAULTS.(caseSensitive := true))
    ensures Parse(read, [SPACE]) == Ok(DEFAULTS.(spaceChangeSensitive := true))
    ensures Parse(read, Tolerance(ABSOLUTE, text, value)) == Ok(DEFAULTS.(absolute := value))
    ensures Parse(read, Tolerance(RELATIVE, text, value)) == Ok(DEFAULTS.(relative := value))
  {
    NamesDiffer();
    assert ParseFrom(read, [CASE], DEFAULTS) == ParseFrom(read, [CASE][1..], DEFAULTS.(caseSensitive := true));
    assert ParseFrom(read, [SPACE], DEFAULTS) == ParseFrom(read, [SPACE][1..], DEFAULTS.(spaceChangeSensitive := true));
    if value.Some? {
      var a, r := Tolerance(ABSOLUTE, text, value), Tolerance(RELATIVE, text, value);
      assert ParseFrom(read, a, DEFAULTS) == ParseFrom(read, a[2..], WithTolerance(DEFAULTS, ABSOLUTE, value.value));
      assert ParseFrom(read, r, DEFAULTS) == ParseFrom(read, r[2..], WithTolerance(DEFAULTS, RELATIVE, value.value));
    }
  }

  /** Parsing a printing of flags returns them, for any printer whose texts of the numbers in
      them are read back. */
  lemma FlagsRoundTrip(read: Reader, text: Number -> string, flags: CompareFlags)
    requires flags.absolute.Some? ==> read(text(flags.absolute.value)) == flags.absolute
    requires flags.relative.Some? ==> read(text(flags.relative.value)) == flags.relative
    ensures Parse(read, Print(text, flags)) == Ok(flags)
  {
    var a := if flags.caseSensitive then [CASE] else [];
    var b := if flags.spaceChangeSensitive then [SPACE] else [];
    var c := Tolerance(ABSOLUTE, text, flags.absolute);
    var d := Tolerance(RELATIVE, text, flags.relative);
    OneFlag(read, text, flags.absolute);
    OneFlag(read, text, flags.relative);
    ParsingIsCompositional(read, a, b);
    ParsingIsCompositional(read, a + b, c);
    ParsingIsCompositional(read, a + b + c, d);
  }

  // ----- what a list of flags means, and which lists are refused

  /** A flag as it is written: alone, or with the text of its value. */
  datatype Item = Bare(flag: string) | Valued(flag: string, text: string) {
    ghost predicate Valid(read: Reader) {
      match this
      case Bare(flag) => flag == "case_sensitive" || flag == "space_change_sensitive"
      case Valued(flag, text) =>
        && (flag == "float_tolerance" || flag == "float_absolute_tolerance" || flag == "float_relative_tolerance")
        && read(text).Some?
    }

    function Written(): seq<string> {
      if Bare? then [flag] else [flag, text]
    }
  }

  ghost predicate AllValid(read: Reader, items: seq<Item>) { forall i :: 0 <= i < |items| ==> items[i].Valid(read) }

  function Written(items: seq<Item>): seq<string> {
    if items == [] then [] else Written(items[..|items| - 1]) + items[|items| - 1].Written()
  }

  /** The value of the last item that is written with one of two flags. */
  function LastValue(read: Reader, items: seq<Item>, one: string, other: string): Option<Number> {
    if items == [] then None
    else
      var last := items[|items| - 1];
      if last.Valued? && (last.flag == one || last.flag == other) then read(last.text)
      else LastValue(read, items[..|items| - 1], one, other)
  }

  ghost function Meaning(read: Reader, items: seq<Item>): CompareFlags {
    CompareFlags(
      Bare("case_sensitive") in items, Bare("space_change_sensitive") in items,
      LastValue(read, items, "float_tolerance", "float_absolute_tolerance"),
      LastValue(read, items, "float_tolerance", "float_relative_tolerance"))
  }

  /** One item more, on top of any flags. */
  lemma OneItem(read: Reader, item: Item, acc: CompareFlags)
    requires item.Valid(read)
    ensures ParseFrom(read, item.Written(), acc)
            == Ok(CompareFlags(
                    acc.caseSensitive || item == Bare("case_sensitive"),
                    acc.spaceChangeSensitive || item == Bare("space_change_sensitive"),
                    if item.Valued? && item.flag != "float_relative_tolerance" then read(item.text) else acc.absolute,
                    if item.Valued? && item.flag != "float_absolute_tolerance" then read(item.text) else acc.relative))
  {
    NamesDiffer();
    var words := item.Written();
    if item.Bare? {
      assert words[1..] == [];
    } else {
      assert words[2..] == [];
      var next := WithTolerance(acc, item.flag, read(item.text).value);
      assert ParseFrom(read, words, acc) == ParseFrom(read, [], next);
    }
  }

  /** The meaning of a list of valid items: a bare flag anywhere switches on, the last value
      of a tolerance wins, and `float_tolerance` is a value of both. */
  lemma {:induction false} ItemsMean(read: Reader, items: seq<Item>)
    requires AllValid(read, items)
    ensures Parse(read, Written(items)) == Ok(Meaning(read, items))
  {
    if items != [] {
      var fewer, last := items[..|items| - 1], items[|items| - 1];
      ItemsMean(read, fewer);
      ParseAppended(read, Written(fewer), last.Written(), DEFAULTS);
      OneItem(read, last, Meaning(read, fewer));
      assert items == fewer + [last];
      NamesDiffer();
    }
  }

  /** What stops the parser: a flag it does not know, a tolerance at the very end, or a value
      that is not a number. */
  ghost predicate Refused(read: Reader, rest: seq<string>, error: FlagError) {
    && rest != []
    && var tolerance := rest[0] == "float_tolerance" || rest[0] == "float_absolute_tolerance"
                        || rest[0] == "float_relative_tolerance";
       match error
       case UnknownFlag(flag) =>
         flag == rest[0] && !tolerance && flag != "case_sensitive" && flag != "space_change_sensitive"
       case NoValue(flag) => flag == rest[0] && tolerance && |rest| == 1
       case NotANumber(flag, text) =>
         flag == rest[0] && tolerance && 1 < |rest| && text == rest[1] && read(text).None?
  }

  lemma RefusedAtOnce(read: Reader, rest: seq<string>, error: FlagError, acc: CompareFlags)
    requires Refused(read, rest, error)
    ensures ParseFrom(read, rest, acc) == Err(error)
  {
    NamesDiffer();
  }

  ghost predicate Stops(read: Reader, rest: seq<string>) { exists error :: Refused(read, rest, error) }

  lemma NextItem(read: Reader, rest: seq<string>) returns (item: Item)
    requires rest != [] && !Stops(read, rest)
    ensures item.Valid(read) && |item.Written()| <= |rest| && rest == item.Written() + rest[|item.Written()|..]
  {
    assert !Refused(read, rest, UnknownFlag(rest[0])) && !Refused(read, rest, NoValue(rest[0]));
    if rest[0] == "case_sensitive" || rest[0] == "space_change_sensitive" {
      item := Bare(rest[0]);
    } else {
      assert !Refused(read, rest, NotANumber(rest[0], rest[1]));
      item := Valued(rest[0], rest[1]);
    }
  }

  lemma OneMoreItem(read: Reader, items: seq<Item>, item: Item)
    requires AllValid(read, items) && item.Valid(read)
    ensures AllValid(read, items + [item]) && Written(items + [item]) == Written(items) + item.Written()
  {
    assert (items + [item])[..|items|] == items;
  }

  /** Every list of words is a list of valid items followed by nothing or by what is refused. */
  lemma EveryListSplits(read: Reader, words: seq<string>)
    returns (items: seq<Item>, rest: seq<string>)
    ensures AllValid(read, items) && words == Written(items) + rest && (rest == [] || Stops(read, rest))
  {
    hide Stops, AllValid, Written;
    items, rest := [], words;
    NothingWritten(read);
    while rest != [] && !Stops(read, rest)
      invariant AllValid(read, items) && words == Written(items) + rest
      decreases |rest|
    {
      var item := NextItem(read, rest);
      OneMoreItem(read, items, item);
      items, rest := items + [item], rest[|item.Written()|..];
    }
  }

  lemma NothingWritten(read: Reader)
    ensures AllValid(read, []) && Written([]) == []
  {
  }

  /** The parser, completely: the words are valid items, and it returns their meaning, or they
      are refused at the first word that cannot go on, with the reason. */
  lemma ParsesExactly(read: Reader, words: seq<string>)
    ensures match Parse(read, words)
            case Ok(flags) =>
              exists items :: AllValid(read, items) && words == Written(items) && flags == Meaning(read, items)
            case Err(error) =>
              exists items, rest ::
                AllValid(read, items) && words == Written(items) + rest && Refused(read, rest, error)
  {
    var items, rest := EveryListSplits(read, words);
    ItemsMean(read, items);
    ParseAppended(read, Written(items), rest, DEFAULTS);
    if rest == [] {
      assert words == Written(items);
    } else {
      var error :| Refused(read, rest, error);
      RefusedAtOnce(read, rest, error, Meaning(read, items));
    }
  }

  /** The common flag: one value for both tolerances. */
  lemma BothTolerances(read: Reader, text: string)
    requires read(text).Some?
    ensures Parse(read, ["float_tolerance", text]) == Ok(CompareFlags(false, false, read(text), read(text)))
  {
    var items := [Valued("float_tolerance", text)];
    assert items[..0] == [] && Written(items) == ["float_tolerance", text];
    ItemsMean(read, items);
    assert Bare("case_sensitive") !in items && Bare("space_change_sensitive") !in items;
  }

  /** Any printing of flags is read back: with any items that mean them, in any order, with
      repetitions, and with one value for both tolerances where they are equal. */
  lemma EveryPrintingRoundTrips(read: Reader, items: seq<Item>, flags: CompareFlags)
    requires AllValid(read, items) && Meaning(read, items) == flags
    ensures Parse(read, Written(items)) == Ok(flags)
  {
    ItemsMean(read, items);
  }
}
