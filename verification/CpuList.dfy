/**
 `_parse_cpu_list` of src/icpc_verify/cpu.py: the sibling lists of the kernel, such as
 "0-3,8".  `toInt` is the host language's reading of an integer.
 */
module CpuList {
  import opened Options
  import opened Text

  type IntReader = string -> Option<int>

  datatype Result = Ok(cpus: seq<int>) | BadNumber

  // ----- ranges and sorting

  /** `range(lo, hi + 1)` */
  function Range(lo: int, hi: int): (r: seq<int>)
    ensures |r| == if lo <= hi then hi - lo + 1 else 0
    ensures forall i :: 0 <= i < |r| ==> r[i] == lo + i
    decreases hi - lo
  {
    if hi < lo then [] else [lo] + Range(lo + 1, hi)
  }

  predicate Sorted(s: seq<int>) { forall i, j :: 0 <= i < j < |s| ==> s[i] <= s[j] }

  predicate StrictlyIncreasing(s: seq<int>) { forall i, j :: 0 <= i < j < |s| ==> s[i] < s[j] }

  function Insert(x: int, s: seq<int>): (r: seq<int>)
    ensures multiset(r) == multiset(s) + multiset{x}
  {
    if s == [] || x <= s[0] then [x] + s
    else
      assert s == [s[0]] + s[1..];
      [s[0]] + Insert(x, s[1..])
  }

  lemma {:induction false} InsertKeepsSorted(x: int, s: seq<int>)
    requires Sorted(s)
    ensures Sorted(Insert(x, s))
  {
    if s != [] && s[0] < x {
      InsertKeepsSorted(x, s[1..]);
      var rest := Insert(x, s[1..]);
      forall j | 0 <= j < |rest| ensures s[0] <= rest[j] {
        assert rest[j] in multiset(s[1..]) + multiset{x};
        assert rest[j] == x || rest[j] in s[1..];
      }
    }
  }

  /** `sorted(values)` */
  function Sort(s: seq<int>): (r: seq<int>)
    ensures multiset(r) == multiset(s)
  {
    if s == [] then []
    else
      assert s == [s[0]] + s[1..];
      Insert(s[0], Sort(s[1..]))
  }

  lemma {:induction false} SortSorts(s: seq<int>)
    ensures Sorted(Sort(s))
  {
    if s != [] {
      SortSorts(s[1..]);
      InsertKeepsSorted(s[0], Sort(s[1..]));
    }
  }

  lemma {:induction false} SortFixesSorted(s: seq<int>)
    requires Sorted(s)
    ensures Sort(s) == s
  {
    if s != [] {
      SortFixesSorted(s[1..]);
      assert s == [s[0]] + s[1..];
      if s[1..] != [] { assert s[0] <= s[1] && s[1..][0] == s[1]; }
    }
  }

  // ----- the program

  /** `s.split(sep, 1)` when `sep` occurs. */
  function SplitOnce(s: string, sep: char): (r: (string, string))
    requires sep in s
    ensures s == r.0 + [sep] + r.1 && sep !in r.0
  {
    assert s == [s[0]] + s[1..];
    if s[0] == sep then ([], s[1..])
    else
      var rest := SplitOnce(s[1..], sep);
      ([s[0]] + rest.0, rest.1)
  }

  lemma {:induction false} SplitOnceAt(a: string, b: string, sep: char)
    requires sep !in a
    ensures SplitOnce(a + [sep] + b, sep) == (a, b)
  {
    var s := a + [sep] + b;
    assert s[|a|] == sep;
    if a != [] {
      SplitOnceAt(a[1..], b, sep);
      assert s[1..] == a[1..] + [sep] + b && s[0] == a[0];
      assert [a[0]] + a[1..] == a;
    } else {
      assert s[1..] == b;
    }
  }

  /** The CPUs of one part of the list: a range, a number, or nothing. */
  function PartCpus(toInt: IntReader, part: string): Option<seq<int>> {
    if part == [] then Some([])
    else if '-' in part then
      var ends := SplitOnce(part, '-');
      var lo, hi := toInt(ends.0), toInt(ends.1);
      if lo.None? || hi.None? then None else Some(Range(lo.value, hi.value))
    else
      var n := toInt(part);
      if n.None? then None else Some([n.value])
  }

  /** The concatenated CPUs of all parts. */
  function Gathered(toInt: IntReader, parts: seq<string>): Option<seq<int>> {
    if parts == [] then Some([])
    else
      var rest := Gathered(toInt, parts[..|parts| - 1]);
      var last := PartCpus(toInt, parts[|parts| - 1]);
      if rest.None? || last.None? then None else Some(rest.value + last.value)
  }

  function Parse(space: char -> bool, toInt: IntReader, text: string): Result {
    var all := Gathered(toInt, SplitOn(Strip(space, text), ','));
    if all.None? then BadNumber else Ok(Sort(all.value))
  }

  method ParseCpuList(space: char -> bool, toInt: IntReader, text: string) returns (r: Result)
    ensures r == Parse(space, toInt, text)
  {
    var parts := SplitOn(Strip(space, text), ',');
    var values: seq<int> := [];
    for i := 0 to |parts|
      invariant Gathered(toInt, parts[..i]) == Some(values)
    {
      assert parts[..i + 1][..i] == parts[..i];
      var cpus := PartCpus(toInt, parts[i]);
      if cpus.None? {
        FailureIsFinal(toInt, parts, i + 1);
        return BadNumber;
      }
      values := values + cpus.value;
    }
    assert parts[..|parts|] == parts;
    return Ok(Sort(values));
  }

  lemma {:induction false} FailureIsFinal(toInt: IntReader, parts: seq<string>, i: nat)
    requires i <= |parts| && Gathered(toInt, parts[..i]).None?
    ensures Gathered(toInt, parts).None?
    decreases |parts|
  {
    if i < |parts| {
      var most := parts[..|parts| - 1];
      assert most[..i] == parts[..i];
      FailureIsFinal(toInt, most, i);
    } else {
      assert parts[..i] == parts;
    }
  }

  // ----- the language

  datatype Item = Single(n: nat) | Span(lo: nat, hi: nat)

  function PrintItem(item: Item): string {
    match item
    case Single(n) => PrintNat(n)
    case Span(lo, hi) => PrintNat(lo) + "-" + PrintNat(hi)
  }

  function ItemCpus(item: Item): seq<int> {
    match item
    case Single(n) => [n]
    case Span(lo, hi) => Range(lo, hi)
  }

  function Printed(items: seq<Item>): (parts: seq<string>)
    ensures |parts| == |items| && forall i :: 0 <= i < |items| ==> parts[i] == PrintItem(items[i])
  {
    if items == [] then [] else [PrintItem(items[0])] + Printed(items[1..])
  }

  function Print(items: seq<Item>): string
    requires items != []
  {
    JoinWith(Printed(items), ',')
  }

  /** The CPUs named by a list, in the order in which they are named. */
  function Named(items: seq<Item>): seq<int> {
    if items == [] then [] else Named(items[..|items| - 1]) + ItemCpus(items[|items| - 1])
  }

  /** `toInt` reads decimal numerals, and digits, '-' and ',' are not white space. */
  ghost predicate Ordinary(space: char -> bool, toInt: IntReader) {
    && (forall n: nat :: toInt(PrintNat(n)) == Some(n))
    && (forall c :: IsDigit(c) ==> !space(c))
  }

  lemma DigitsOnly(n: nat)
    ensures '-' !in PrintNat(n) && ',' !in PrintNat(n)
  {
  }

  lemma PartRoundTrip(space: char -> bool, toInt: IntReader, item: Item)
    requires Ordinary(space, toInt)
    ensures PartCpus(toInt, PrintItem(item)) == Some(ItemCpus(item))
    ensures ',' !in PrintItem(item) && PrintItem(item) != []
    ensures !space(PrintItem(item)[0]) && !space(PrintItem(item)[|PrintItem(item)| - 1])
  {
    match item
    case Single(n) =>
      DigitsOnly(n);
    case Span(lo, hi) =>
      DigitsOnly(lo);
      DigitsOnly(hi);
      var a, b := PrintNat(lo), PrintNat(hi);
      var part := a + "-" + b;
      SplitOnceAt(a, b, '-');
      assert part[|a|] == '-';
      assert part[0] == a[0] && part[|part| - 1] == b[|b| - 1];
  }

  lemma {:induction false} GatheredPrinted(space: char -> bool, toInt: IntReader, items: seq<Item>)
    requires Ordinary(space, toInt)
    ensures Gathered(toInt, Printed(items)) == Some(Named(items))
  {
    if items != [] {
      var n := |items| - 1;
      GatheredPrinted(space, toInt, items[..n]);
      PartRoundTrip(space, toInt, items[n]);
      assert Printed(items)[..n] == Printed(items[..n]);
    }
  }

  lemma {:induction false} JoinedEnds(space: char -> bool, parts: seq<string>)
    requires 0 < |parts| && forall p :: p in parts ==> p != [] && !space(p[0]) && !space(p[|p| - 1])
    ensures var s := JoinWith(parts, ',');
            s != [] && !space(s[0]) && !space(s[|s| - 1])
  {
    if 1 < |parts| {
      JoinedEnds(space, parts[1..]);
    }
  }

  /** Any printed list, in any order and with any overlaps, is read as the sorted CPUs it
      names: the output is sorted and is the multiset union of the parts. */
  lemma PrintedListIsRead(space: char -> bool, toInt: IntReader, items: seq<Item>, left: string, right: string)
    requires Ordinary(space, toInt) && items != [] && Text.Blank(space, left) && Text.Blank(space, right)
    ensures var r := Parse(space, toInt, left + Print(items) + right);
            r == Ok(Sort(Named(items))) && Sorted(r.cpus) && multiset(r.cpus) == multiset(Named(items))
  {
    var parts := Printed(items);
    forall p | p in parts ensures ',' !in p && p != [] && !space(p[0]) && !space(p[|p| - 1]) {
      var i :| 0 <= i < |parts| && parts[i] == p;
      PartRoundTrip(space, toInt, items[i]);
    }
    JoinedEnds(space, parts);
    StripPadded(space, left, Print(items), right);
    JoinThenSplit(parts, ',');
    GatheredPrinted(space, toInt, items);
    SortSorts(Named(items));
  }

  /** Any mix of numbers and ranges printed from an increasing CPU list is read back as
      that list. */
  lemma CpuListRoundTrip(
    space: char -> bool, toInt: IntReader, items: seq<Item>, cpus: seq<int>, left: string, right: string)
    requires Ordinary(space, toInt) && items != [] && Text.Blank(space, left) && Text.Blank(space, right)
    requires Named(items) == cpus && StrictlyIncreasing(cpus)
    ensures Parse(space, toInt, left + Print(items) + right) == Ok(cpus)
  {
    PrintedListIsRead(space, toInt, items, left, right);
    SortFixesSorted(cpus);
  }

  // ----- any list of parts

  /** What a part names: nothing, the numbers from one end of its first dash to the other, or
      one number. */
  ghost predicate Names(toInt: IntReader, part: string, n: int) {
    && part != []
    && if '-' in part
       then exists lo, hi :: part == lo + "-" + hi && '-' !in lo && toInt(lo).Some? && toInt(hi).Some?
                             && toInt(lo).value <= n <= toInt(hi).value
       else toInt(part) == Some(n)
  }

  /** A part that is not a number, or not a range of two. */
  ghost predicate Unreadable(toInt: IntReader, part: string) {
    && part != []
    && if '-' in part
       then exists lo, hi :: part == lo + "-" + hi && '-' !in lo && (toInt(lo).None? || toInt(hi).None?)
       else toInt(part).None?
  }

  lemma PartExactly(toInt: IntReader, part: string)
    ensures PartCpus(toInt, part).None? <==> Unreadable(toInt, part)
    ensures PartCpus(toInt, part).Some? ==> forall n :: n in PartCpus(toInt, part).value <==> Names(toInt, part, n)
  {
    if '-' in part {
      var ends := SplitOnce(part, '-');
      assert part == ends.0 + "-" + ends.1;
      forall lo, hi | part == lo + "-" + hi && '-' !in lo ensures (lo, hi) == ends {
        SplitOnceAt(lo, hi, '-');
      }
      if PartCpus(toInt, part).Some? {
        var a, b := toInt(ends.0).value, toInt(ends.1).value;
        var r := Range(a, b);
        forall n ensures n in r <==> a <= n <= b {
          if a <= n <= b { assert r[n - a] == n; }
        }
      }
    }
  }

  ghost predicate SomeNames(toInt: IntReader, parts: seq<string>, n: int) {
    exists i :: 0 <= i < |parts| && Names(toInt, parts[i], n)
  }

  ghost predicate SomeUnreadable(toInt: IntReader, parts: seq<string>) {
    exists i :: 0 <= i < |parts| && Unreadable(toInt, parts[i])
  }

  lemma SomeOfMore(toInt: IntReader, parts: seq<string>, n: int)
    requires parts != []
    ensures var most, last := parts[..|parts| - 1], parts[|parts| - 1];
            && (SomeNames(toInt, parts, n) <==> SomeNames(toInt, most, n) || Names(toInt, last, n))
            && (SomeUnreadable(toInt, parts) <==> SomeUnreadable(toInt, most) || Unreadable(toInt, last))
  {
    hide Names, Unreadable;
    var most, last := parts[..|parts| - 1], parts[|parts| - 1];
    assert forall i :: 0 <= i < |most| ==> most[i] == parts[i];
    assert parts[|parts| - 1] == last;
  }

  lemma {:induction false} GatheredExactly(toInt: IntReader, parts: seq<string>)
    ensures var all := Gathered(toInt, parts);
            && (all.None? <==> SomeUnreadable(toInt, parts))
            && (all.Some? ==> forall n :: n in all.value <==> SomeNames(toInt, parts, n))
  {
    if parts != [] {
      var most, last := parts[..|parts| - 1], parts[|parts| - 1];
      GatheredExactly(toInt, most);
      PartExactly(toInt, last);
      SomeOfMore(toInt, parts, 0);
      forall n ensures SomeNames(toInt, parts, n) <==> SomeNames(toInt, most, n) || Names(toInt, last, n) {
        SomeOfMore(toInt, parts, n);
      }
      hide Names, Unreadable, SomeNames, SomeUnreadable, PartCpus;
    }
  }

  lemma SortKeepsMembers(s: seq<int>, n: int)
    ensures n in Sort(s) <==> n in s
  {
    assert n in Sort(s) <==> n in multiset(Sort(s));
    assert n in s <==> n in multiset(s);
  }

  /** Every text: it is refused exactly when one of its parts cannot be read, and otherwise is
      read as the sorted list of the numbers its parts name; empty parts name nothing. */
  lemma ParsesExactly(space: char -> bool, toInt: IntReader, text: string)
    ensures var parts, r := SplitOn(Strip(space, text), ','), Parse(space, toInt, text);
            && (r.BadNumber? <==> SomeUnreadable(toInt, parts))
            && (r.Ok? ==> Sorted(r.cpus) && forall n :: n in r.cpus <==> SomeNames(toInt, parts, n))
  {
    var parts := SplitOn(Strip(space, text), ',');
    GatheredExactly(toInt, parts);
    var all := Gathered(toInt, parts);
    hide SomeNames, SomeUnreadable, Gathered;
    if all.Some? {
      SortSorts(all.value);
      forall n ensures n in Sort(all.value) <==> n in all.value {
        SortKeepsMembers(all.value, n);
      }
    }
  }
}
