/** The parts of Go's `strings` package the modelled code uses. */
module Strings {

  /** `unicode.IsSpace`. */
  predicate IsSpace(c: char) {
    || c in {' ', '\t', '\n', '\r'} || c as int in {0x0B, 0x0C, 0x85, 0xA0, 0x1680, 0x2028, 0x2029, 0x202F, 0x205F, 0x3000}
    || 0x2000 <= c as int <= 0x200A
  }

  function TrimLeft(s: string): string {
    if s != [] && IsSpace(s[0]) then TrimLeft(s[1..]) else s
  }

  function TrimRight(s: string): string {
    if s != [] && IsSpace(s[|s| - 1]) then TrimRight(s[..|s| - 1]) else s
  }

  function TrimSpace(s: string): string {
    TrimRight(TrimLeft(s))
  }

  predicate Blank(s: string) {
    forall i :: 0 <= i < |s| ==> IsSpace(s[i])
  }

  lemma {:induction false} TrimLeftBlank(s: string)
    ensures TrimLeft(s) == "" <==> Blank(s)
  {
    if s != [] && IsSpace(s[0]) {
      TrimLeftBlank(s[1..]);
      assert forall i :: 1 <= i < |s| ==> s[i] == s[1..][i - 1];
      assert forall i :: 0 <= i < |s| - 1 ==> s[1..][i] == s[i + 1];
    }
  }

  /** Trimming leaves nothing exactly when there is nothing but space. */
  lemma TrimBlank(s: string)
    ensures TrimSpace(s) == "" <==> Blank(s)
  {
    TrimLeftBlank(s);
    var t := TrimLeft(s);
    TrimLeftStart(s);
    if t != [] {
      assert t == [t[0]] + t[1..];
      TrimRightKeeps([t[0]], t[1..]);
    }
  }

  lemma {:induction false} TrimLeftStart(s: string)
    ensures TrimLeft(s) != "" ==> !IsSpace(TrimLeft(s)[0])
  {
    if s != [] && IsSpace(s[0]) { TrimLeftStart(s[1..]); }
  }

  /** Trimming the right end does not reach past a character that is not a space. */
  lemma {:induction false} TrimRightKeeps(a: string, b: string)
    requires a != [] && !IsSpace(a[|a| - 1])
    ensures a <= TrimRight(a + b)
    decreases |b|
  {
    if b == [] {
      assert a + b == a;
    } else if IsSpace(b[|b| - 1]) {
      assert (a + b)[..|a + b| - 1] == a + b[..|b| - 1];
      TrimRightKeeps(a, b[..|b| - 1]);
    }
  }

  /** The first index of the character, or -1. */
  function IndexOf(s: string, c: char): (r: int)
    ensures -1 <= r < |s|
    ensures r >= 0 ==> s[r] == c && c !in s[..r]
    ensures r < 0 ==> c !in s
  {
    if s == [] then -1
    else if s[0] == c then 0
    else
      var r := IndexOf(s[1..], c);
      assert r >= 0 ==> s[..r + 1] == [s[0]] + s[1..][..r];
      assert s == [s[0]] + s[1..];
      if r < 0 then -1 else r + 1
  }

  /** The first index at which the text occurs, or -1. */
  function IndexOfText(s: string, t: string): (r: int)
    ensures -1 <= r <= |s|
    ensures r >= 0 ==> t <= s[r..]
  {
    if t <= s then assert s[0..] == s; 0
    else if s == [] then -1
    else
      var r := IndexOfText(s[1..], t);
      assert r >= 0 ==> s[r + 1..] == s[1..][r..];
      if r < 0 then -1 else r + 1
  }

  /** A text is found right after a prefix that lacks its first character. */
  lemma {:induction false} IndexAfter(a: string, t: string, b: string)
    requires t != [] && t[0] !in a
    ensures IndexOfText(a + t + b, t) == |a|
  {
    var s := a + t + b;
    if a == [] {
      assert t <= s;
    } else {
      assert s[0] == a[0] && s[1..] == a[1..] + t + b;
      IndexAfter(a[1..], t, b);
    }
  }

  lemma {:induction false} IndexNowhere(s: string, t: string)
    requires t != [] && t[0] !in s
    ensures IndexOfText(s, t) == -1
  {
    if s != [] { IndexNowhere(s[1..], t); }
  }

  function Split(s: string, c: char): (r: seq<string>)
    ensures r != []
  {
    if s == [] then [[]]
    else
      var rest := Split(s[1..], c);
      if s[0] == c then [[]] + rest else [[s[0]] + rest[0]] + rest[1..]
  }

  lemma {:induction false} SplitWhole(s: string, c: char)
    requires c !in s
    ensures Split(s, c) == [s]
  {
    if s != [] {
      SplitWhole(s[1..], c);
      assert s == [s[0]] + s[1..];
    }
  }

  lemma SplitCons(s: string, c: char)
    requires s != []
    ensures
      var rest := Split(s[1..], c);
      Split(s, c) == if s[0] == c then [[]] + rest else [[s[0]] + rest[0]] + rest[1..]
  {
  }

  lemma {:induction false} SplitAt(a: string, c: char, b: string)
    ensures Split(a + [c] + b, c) == Split(a, c) + Split(b, c)
    decreases |a|
  {
    var s := a + [c] + b;
    SplitCons(s, c);
    if a == [] {
      assert s[0] == c && s[1..] == b;
    } else {
      assert s[0] == a[0] && s[1..] == a[1..] + [c] + b;
      SplitAt(a[1..], c, b);
      SplitCons(a, c);
      Regroup([], Split(a[1..], c), Split(b, c));
      Regroup([a[0]], Split(a[1..], c), Split(b, c));
    }
  }

  lemma Regroup(h: string, x: seq<string>, y: seq<string>)
    requires x != []
    ensures [h] + (x + y) == ([h] + x) + y
    ensures [h + (x + y)[0]] + (x + y)[1..] == ([h + x[0]] + x[1..]) + y
  {
  }

  function Join(parts: seq<string>, sep: string): string {
    if parts == [] then ""
    else if |parts| == 1 then parts[0]
    else parts[0] + sep + Join(parts[1..], sep)
  }

  /** Splitting undoes joining when no part holds the separator. */
  lemma {:induction false} SplitJoin(parts: seq<string>, c: char)
    requires parts != [] && forall i :: 0 <= i < |parts| ==> c !in parts[i]
    ensures Split(Join(parts, [c]), c) == parts
    decreases |parts|
  {
    SplitWhole(parts[0], c);
    if |parts| > 1 {
      SplitJoin(parts[1..], c);
      SplitAt(parts[0], c, Join(parts[1..], [c]));
    }
  }

  /** Text without the separator joins the first piece of what follows it. */
  lemma {:induction false} SplitPrefix(h: string, s: string, c: char)
    requires c !in h
    ensures Split(h + s, c) == [h + Split(s, c)[0]] + Split(s, c)[1..]
    decreases |h|
  {
    var pieces := Split(s, c);
    if h == [] {
      assert h + s == s && h + pieces[0] == pieces[0] && pieces == [pieces[0]] + pieces[1..];
    } else {
      assert (h + s)[1..] == h[1..] + s;
      SplitPrefix(h[1..], s, c);
      assert [h[0]] + (h[1..] + pieces[0]) == h + pieces[0];
    }
  }
}
