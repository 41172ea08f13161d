/** The JavaScript built-ins that the frame logic uses to pick its state out
    of the page: `slice` on strings, `split`, `at(-1)` and `reverse`, with
    JavaScript's treatment of negative and out-of-range indices. */
module JsBuiltins {

  datatype Option<T> = None | Some(value: T)

  /** How `slice` turns one relative index into a position in a sequence of
      length `len`: a negative index counts from the end, and the position
      is clamped to 0..len. */
  function SliceIndex(rel: int, len: nat): (pos: nat)
    ensures pos <= len
    ensures 0 <= rel <= len ==> pos == rel
    ensures rel < 0 && 0 <= len + rel ==> pos == len + rel
    ensures rel > len ==> pos == len
    ensures len + rel < 0 ==> pos == 0
  {
    if rel < 0 then
      (if len + rel < 0 then 0 else len + rel)
    else
      (if rel > len then len else rel)
  }

  /** `s.slice(start, end)`: the part between the two resolved positions,
      or nothing when the end position is not past the start position. */
  function Slice<T>(s: seq<T>, start: int, end: int): (r: seq<T>)
    ensures |r| <= |s|
    ensures 0 <= start <= end <= |s| ==> r == s[start..end]
    ensures 0 <= start && -|s| <= end < 0 && start <= |s| + end ==> r == s[start..|s| + end]
    ensures 0 <= end <= start ==> r == []
    ensures 0 <= start <= |s| <= end ==> r == s[start..]
    ensures |s| <= start ==> r == []
    ensures SliceIndex(end, |s|) <= SliceIndex(start, |s|) ==> r == []
    ensures multiset(r) <= multiset(s)
  {
    var from := SliceIndex(start, |s|);
    var to := SliceIndex(end, |s|);
    if from < to then
      assert s == s[..from] + s[from..to] + s[to..];
      s[from..to]
    else
      []
  }

  /** `s.split(sep)` for a one-character separator: the maximal runs between
      separators, one more run than there are separators. */
  function Split(s: string, sep: char): (parts: seq<string>)
    ensures |parts| == multiset(s)[sep] + 1
    ensures forall k :: 0 <= k < |parts| ==> sep !in parts[k]
  {
    if s == [] then
      [[]]
    else
      assert s == [s[0]] + s[1..];
      var rest := Split(s[1..], sep);
      if s[0] == sep then
        [[]] + rest
      else
        [[s[0]] + rest[0]] + rest[1..]
  }

  /** `parts.join(sep)`. */
  function Join(parts: seq<string>, sep: char): string
    requires |parts| >= 1
  {
    if |parts| == 1 then parts[0] else parts[0] + [sep] + Join(parts[1..], sep)
  }

  /** Joining the parts of a split with the same separator restores the
      original string: `split` loses nothing. */
  lemma {:induction false} JoinSplit(s: string, sep: char)
    ensures Join(Split(s, sep), sep) == s
  {
    if s != [] {
      var rest := Split(s[1..], sep);
      JoinSplit(s[1..], sep);
      SplitFirst(s, sep);
      if s[0] == sep {
        JoinCons([], rest, sep);
        assert [] + [sep] + s[1..] == s;
      } else {
        JoinExtendFirst(s[0], rest, sep);
        assert [s[0]] + s[1..] == s;
      }
    }
  }

  /** One step of `split`: the first character either ends an empty first
      part or joins the first part of the rest. */
  lemma SplitFirst(s: string, sep: char)
    requires s != []
    ensures var rest := Split(s[1..], sep);
      Split(s, sep) == if s[0] == sep then [[]] + rest else [[s[0]] + rest[0]] + rest[1..]
  {
  }

  /** Joining one more part in front puts it and a separator in front. */
  lemma JoinCons(part: string, parts: seq<string>, sep: char)
    requires |parts| >= 1
    ensures Join([part] + parts, sep) == part + [sep] + Join(parts, sep)
  {
    assert ([part] + parts)[1..] == parts;
  }

  /** Joining after one more element at the front of the first part puts
      that element in front. */
  lemma JoinExtendFirst(x: char, parts: seq<string>, sep: char)
    requires |parts| >= 1
    ensures Join([[x] + parts[0]] + parts[1..], sep) == [x] + Join(parts, sep)
  {
    var extended := [[x] + parts[0]] + parts[1..];
    if |parts| == 1 {
      assert Join(extended, sep) == [x] + parts[0];
    } else {
      assert extended[1..] == parts[1..];
      var tail := Join(parts[1..], sep);
      assert Join(extended, sep) == ([x] + parts[0]) + [sep] + tail;
      assert Join(parts, sep) == parts[0] + [sep] + tail;
      assert ([x] + parts[0]) + [sep] + tail == [x] + (parts[0] + [sep] + tail);
    }
  }

  /** `s.split(sep).at(-1)`; `split` never returns an empty array, so
      `at(-1)` is always defined. */
  function LastPart(s: string, sep: char): (r: string)
    ensures sep !in r
    ensures sep !in s ==> r == s
  {
    var parts := Split(s, sep);
    if sep in s then
      parts[|parts| - 1]
    else
      SplitWithoutSeparator(s, sep);
      parts[|parts| - 1]
  }

  /** A string free of the separator is split into itself alone. */
  lemma {:induction false} SplitWithoutSeparator(s: string, sep: char)
    requires sep !in s
    ensures Split(s, sep) == [s]
  {
    if s != [] {
      SplitWithoutSeparator(s[1..], sep);
      assert [s[0]] + s[1..] == s;
    }
  }

  /** The last part is whatever follows the last separator. */
  lemma LastPartAfterSeparator(prefix: string, sep: char, tail: string)
    requires sep !in tail
    ensures LastPart(prefix + [sep] + tail, sep) == tail
  {
    SplitLastAfterSeparator(prefix, sep, tail);
  }

  lemma {:induction false} SplitLastAfterSeparator(prefix: string, sep: char, tail: string)
    requires sep !in tail
    ensures var parts := Split(prefix + [sep] + tail, sep);
      parts[|parts| - 1] == tail
  {
    var s := prefix + [sep] + tail;
    SplitFirst(s, sep);
    if prefix == [] {
      assert s[1..] == tail;
      SplitWithoutSeparator(tail, sep);
    } else {
      assert s[1..] == prefix[1..] + [sep] + tail;
      SplitLastAfterSeparator(prefix[1..], sep, tail);
      var rest := Split(s[1..], sep);
      assert sep in s[1..] by { assert s[1..][|prefix| - 1] == sep; }
      assert |rest| >= 2;
    }
  }

  /** `a.reverse()`, as the order of the elements it leaves. */
  function Reversed<T>(s: seq<T>): (r: seq<T>)
    ensures |r| == |s|
    ensures |s| >= 1 ==> r[0] == s[|s| - 1] && r[|s| - 1] == s[0]
    ensures forall k :: 0 <= k < |s| ==> r[k] == s[|s| - 1 - k]
    ensures multiset(r) == multiset(s)
  {
    if s == [] then []
    else
      var rest := Reversed(s[1..]);
      assert s == [s[0]] + s[1..];
      assert forall k :: 0 <= k < |s| - 1 ==> rest[k] == s[1..][|s| - 2 - k];
      rest + [s[0]]
  }

  /** Reversing twice restores the original order. */
  lemma {:induction false} ReversedTwice<T>(s: seq<T>)
    ensures Reversed(Reversed(s)) == s
  {
    if s != [] {
      ReversedTwice(s[1..]);
      ReversedAppend(Reversed(s[1..]), s[0]);
      assert [s[0]] + s[1..] == s;
    }
  }

  /** An element appended at the back comes out in front. */
  lemma {:induction false} ReversedAppend<T>(s: seq<T>, x: T)
    ensures Reversed(s + [x]) == [x] + Reversed(s)
  {
    if s == [] {
      assert Reversed([x]) == Reversed([x][1..]) + [x];
    } else {
      var t := s + [x];
      assert t[0] == s[0] && t[1..] == s[1..] + [x];
      ReversedAppend(s[1..], x);
      calc {
        Reversed(t);
        Reversed(s[1..] + [x]) + [s[0]];
        ([x] + Reversed(s[1..])) + [s[0]];
        [x] + (Reversed(s[1..]) + [s[0]]);
      }
    }
  }

  /** Reversing a pair swaps it. */
  lemma ReversedPair<T>(a: T, b: T)
    ensures Reversed([a, b]) == [b, a]
  {
  }
}
