/** Strings as sequences of characters: cutting at a delimiter, splitting
    and joining, and the lemmas that make a split the unique inverse of a
    join. Shared by the URL grammar, its recognizer and the text scraper. */
module Text {

  datatype Option<+T> = None | Some(value: T)

  /** Every character of `s` satisfies `p`. */
  predicate AllChars(s: string, p: char -> bool) {
    forall i :: 0 <= i < |s| ==> p(s[i])
  }

  lemma AllCharsConcat(a: string, b: string, p: char -> bool)
    ensures AllChars(a + b, p) <==> AllChars(a, p) && AllChars(b, p)
  {
    if AllChars(a, p) && AllChars(b, p) {
      forall i | 0 <= i < |a + b| ensures p((a + b)[i]) {
        if i >= |a| { assert (a + b)[i] == b[i - |a|]; }
      }
    }
    if AllChars(a + b, p) {
      forall i | 0 <= i < |a| ensures p(a[i]) { assert (a + b)[i] == a[i]; }
      forall i | 0 <= i < |b| ensures p(b[i]) { assert (a + b)[|a| + i] == b[i]; }
    }
  }

  /** Index of the first character of `s` that is in `stops`, or `|s|`
      when there is none. */
  function Cut(s: string, stops: set<char>): (i: nat)
    ensures i <= |s|
    ensures forall j :: 0 <= j < i ==> s[j] !in stops
    ensures i < |s| ==> s[i] in stops
  {
    if s == [] || s[0] in stops then 0 else 1 + Cut(s[1..], stops)
  }

  /** A prefix free of `stops`, followed by nothing or by a stop character,
      is exactly what `Cut` finds. */
  lemma {:induction false} CutAt(x: string, y: string, stops: set<char>)
    requires forall j :: 0 <= j < |x| ==> x[j] !in stops
    requires y != [] ==> y[0] in stops
    ensures Cut(x + y, stops) == |x|
    decreases |x|
  {
    if x == [] {
      assert x + y == y;
    } else {
      assert (x + y)[0] == x[0];
      assert (x + y)[1..] == x[1..] + y;
      CutAt(x[1..], y, stops);
    }
  }

  /** The two sides of a cut put back together give the whole. Stated
      once here so that callers get the fact without unfolding slices. */
  lemma Glue(a: string, b: string, s: string, i: nat)
    requires i <= |s| && a == s[..i] && b == s[i..]
    ensures a + b == s
  {
  }

  /** `parts[0] + [d] + parts[1] + [d] + ... + parts[n-1]`. */
  function Join(parts: seq<string>, d: char): string
  {
    if parts == [] then []
    else if |parts| == 1 then parts[0]
    else parts[0] + [d] + Join(parts[1..], d)
  }

  /** The pieces of `s` between occurrences of `d`. */
  function Split(s: string, d: char): (parts: seq<string>)
    ensures |parts| >= 1
    ensures forall i :: 0 <= i < |parts| ==> d !in parts[i]
    ensures Join(parts, d) == s
    decreases |s|
  {
    var i := Cut(s, {d});
    if i == |s| then
      assert forall j :: 0 <= j < |s| ==> s[j] != d;
      [s]
    else
      var rest := Split(s[i + 1..], d);
      assert s == s[..i] + [d] + s[i + 1..];
      assert d !in s[..i] by {
        forall j | 0 <= j < i ensures s[..i][j] != d { assert s[j] !in {d}; }
      }
      assert ([s[..i]] + rest)[1..] == rest;
      [s[..i]] + rest
  }

  /** Splitting undoes joining, for pieces free of the delimiter: the pieces
      of a joined string are recovered exactly. */
  lemma {:induction false} SplitJoin(parts: seq<string>, d: char)
    requires |parts| >= 1
    requires forall i :: 0 <= i < |parts| ==> d !in parts[i]
    ensures Split(Join(parts, d), d) == parts
    decreases |parts|
  {
    var p0 := parts[0];
    assert forall j :: 0 <= j < |p0| ==> p0[j] !in {d};
    if |parts| == 1 {
      CutAt(p0, [], {d});
      assert p0 + [] == p0;
    } else {
      var rest := Join(parts[1..], d);
      assert Join(parts, d) == p0 + ([d] + rest);
      CutAt(p0, [d] + rest, {d});
      var s := Join(parts, d);
      assert s[..|p0|] == p0;
      assert s[|p0| + 1..] == rest;
      SplitJoin(parts[1..], d);
      assert parts == [p0] + parts[1..];
    }
  }

  /** Concatenation of all the pieces, with nothing between them. */
  function Concat(parts: seq<string>): string
  {
    if parts == [] then [] else parts[0] + Concat(parts[1..])
  }

  /** Concatenation of `p + [d]` over the pieces: the shape of a regular
      expression `(p\d)+`. */
  function Suffixed(parts: seq<string>, d: char): string
  {
    if parts == [] then [] else parts[0] + [d] + Suffixed(parts[1..], d)
  }

  /** Concatenation of `[d] + p` over the pieces: the shape of `(\dp)*`. */
  function Prefixed(d: char, parts: seq<string>): string
  {
    if parts == [] then [] else [d] + parts[0] + Prefixed(d, parts[1..])
  }

  lemma {:induction false} PrefixedSnoc(d: char, parts: seq<string>, x: string)
    ensures Prefixed(d, parts + [x]) == Prefixed(d, parts) + [d] + x
    decreases |parts|
  {
    if parts != [] {
      assert (parts + [x])[1..] == parts[1..] + [x];
      PrefixedSnoc(d, parts[1..], x);
    }
  }

  lemma {:induction false} SuffixedJoin(parts: seq<string>, last: string, d: char)
    ensures Suffixed(parts, d) + last == Join(parts + [last], d)
    decreases |parts|
  {
    if parts != [] {
      SuffixedJoin(parts[1..], last, d);
      assert (parts + [last])[1..] == parts[1..] + [last];
    }
  }

  lemma {:induction false} PrefixedJoin(d: char, parts: seq<string>)
    requires parts != []
    ensures Prefixed(d, parts) == [d] + Join(parts, d)
    decreases |parts|
  {
    if |parts| > 1 {
      PrefixedJoin(d, parts[1..]);
    }
  }

  /** A joined string is made of its pieces' characters and the delimiter. */
  lemma {:induction false} AllCharsJoin(parts: seq<string>, d: char, p: char -> bool)
    requires p(d)
    requires forall i :: 0 <= i < |parts| ==> AllChars(parts[i], p)
    ensures AllChars(Join(parts, d), p)
    decreases |parts|
  {
    if |parts| > 1 {
      AllCharsJoin(parts[1..], d, p);
      AllCharsConcat(parts[0], [d], p);
      AllCharsConcat(parts[0] + [d], Join(parts[1..], d), p);
    }
  }
}
