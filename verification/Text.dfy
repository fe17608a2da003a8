/** The string operations the parsers share: split on a separator, strip, decimal digits. */
module Text {

  // ----- str.split(sep) and sep.join(parts)

  function SplitOn(s: string, sep: char): (parts: seq<string>)
    ensures 0 < |parts|
  {
    if s == [] then [[]]
    else
      var rest := SplitOn(s[1..], sep);
      if s[0] == sep then [[]] + rest else [[s[0]] + rest[0]] + rest[1..]
  }

  function JoinWith(parts: seq<string>, sep: char): string
    requires 0 < |parts|
  {
    if |parts| == 1 then parts[0] else parts[0] + [sep] + JoinWith(parts[1..], sep)
  }

  lemma {:induction false} SplitThenJoin(s: string, sep: char)
    ensures JoinWith(SplitOn(s, sep), sep) == s
    ensures forall part :: part in SplitOn(s, sep) ==> sep !in part
  {
    if s != [] {
      SplitThenJoin(s[1..], sep);
      var rest := SplitOn(s[1..], sep);
      assert s == [s[0]] + s[1..];
      if s[0] != sep {
        var parts := SplitOn(s, sep);
        assert parts[0] == [s[0]] + rest[0] && parts[1..] == rest[1..];
        forall part | part in parts ensures sep !in part {
          if part == parts[0] { assert rest[0] in rest; }
        }
      } else {
        assert ([[]] + rest)[1..] == rest;
      }
    }
  }

  lemma {:induction false} SplitPrefix(part: string, rest: string, sep: char)
    requires sep !in part
    ensures SplitOn(part, sep) == [part]
    ensures SplitOn(part + [sep] + rest, sep) == [part] + SplitOn(rest, sep)
  {
    if part != [] {
      SplitPrefix(part[1..], rest, sep);
      assert (part + [sep] + rest)[1..] == part[1..] + [sep] + rest;
      assert [part[0]] + part[1..] == part;
    } else {
      assert part + [sep] + rest == [sep] + rest;
      assert ([sep] + rest)[1..] == rest;
    }
  }

  lemma {:induction false} JoinThenSplit(parts: seq<string>, sep: char)
    requires 0 < |parts| && forall part :: part in parts ==> sep !in part
    ensures SplitOn(JoinWith(parts, sep), sep) == parts
  {
    if |parts| == 1 {
      SplitPrefix(parts[0], [], sep);
    } else {
      JoinThenSplit(parts[1..], sep);
      SplitPrefix(parts[0], JoinWith(parts[1..], sep), sep);
    }
  }

  // ----- str.strip()

  ghost predicate Blank(space: char -> bool, s: string) {
    forall i :: 0 <= i < |s| ==> space(s[i])
  }

  function Strip(space: char -> bool, s: string): string {
    if s == [] then s
    else if space(s[0]) then Strip(space, s[1..])
    else if space(s[|s| - 1]) then Strip(space, s[..|s| - 1])
    else s
  }

  /** Neither end is white space. */
  ghost predicate Trimmed(space: char -> bool, s: string) {
    s != [] ==> !space(s[0]) && !space(s[|s| - 1])
  }

  lemma {:induction false} StripSplits(space: char -> bool, s: string) returns (left: string, right: string)
    ensures Blank(space, left) && Blank(space, right) && s == left + Strip(space, s) + right
    ensures Trimmed(space, Strip(space, s))
  {
    if s == [] {
      left, right := [], [];
    } else if space(s[0]) {
      left, right := StripSplits(space, s[1..]);
      left := [s[0]] + left;
    } else if space(s[|s| - 1]) {
      left, right := StripSplits(space, s[..|s| - 1]);
      right := right + [s[|s| - 1]];
    } else {
      left, right := [], [];
    }
  }

  lemma {:induction false} StripPadded(space: char -> bool, left: string, core: string, right: string)
    requires Blank(space, left) && Blank(space, right) && Trimmed(space, core) && core != []
    ensures Strip(space, left + core + right) == core
    decreases |left| + |right|
  {
    var s := left + core + right;
    if left != [] {
      assert s[0] == left[0] && s[1..] == left[1..] + core + right;
      StripPadded(space, left[1..], core, right);
    } else if right != [] {
      assert s[0] == core[0] && s[|s| - 1] == right[|right| - 1];
      assert s[..|s| - 1] == left + core + right[..|right| - 1];
      StripPadded(space, left, core, right[..|right| - 1]);
    } else {
      assert s == core;
    }
  }

  // ----- decimal digits

  predicate IsDigit(c: char) { '0' <= c <= '9' }

  predicate AllDigits(s: string) { s != [] && forall i :: 0 <= i < |s| ==> IsDigit(s[i]) }

  function DigitsValue(s: string): nat
    requires forall i :: 0 <= i < |s| ==> IsDigit(s[i])
  {
    if s == [] then 0
    else
      assert IsDigit(s[|s| - 1]);
      10 * DigitsValue(s[..|s| - 1]) + (s[|s| - 1] - '0') as nat
  }

  function PrintNat(n: nat): (s: string)
    ensures AllDigits(s)
  {
    var digit := ['0' + (n % 10) as char];
    if n < 10 then digit else PrintNat(n / 10) + digit
  }

  lemma {:induction false} PrintedValue(n: nat)
    ensures DigitsValue(PrintNat(n)) == n
  {
    var s := PrintNat(n);
    assert s[|s| - 1] == '0' + (n % 10) as char;
    if 10 <= n {
      PrintedValue(n / 10);
      assert s[..|s| - 1] == PrintNat(n / 10);
    } else {
      assert s[..|s| - 1] == [];
    }
  }
}
