/** The pure part of the server's `scrapeTextFromURL`: given what the page
    fetch and the HTML parser produced, choose the text to analyse and cut
    it to a preview. Fetching and parsing themselves are inputs: `Fetch`
    records whether they failed and, if not, the text content of the
    article containers and of the document body. */
module Scrape {
  import opened Text

  /** Characters of the preview sent for analysis. */
  const PreviewLength: nat := 200

  /** ECMAScript WhiteSpace and LineTerminator: what `trim` strips and what
      the regular expression class `\s` matches. */
  predicate IsWhitespace(c: char) {
    || c == '\t' || c == '\n' || c == '\U{000B}' || c == '\U{000C}' || c == '\r'
    || c == ' ' || c == '\U{00A0}' || c == '\U{1680}'
    || ('\U{2000}' <= c <= '\U{200A}')
    || c == '\U{2028}' || c == '\U{2029}' || c == '\U{202F}' || c == '\U{205F}'
    || c == '\U{3000}' || c == '\U{FEFF}'
  }

  /** `s` holds nothing but whitespace (possibly nothing at all). */
  predicate Blank(s: string) {
    AllChars(s, IsWhitespace)
  }

  /** No two adjacent characters are both whitespace. */
  predicate NoDoubleWhitespace(s: string) {
    forall i :: 0 <= i < |s| - 1 ==> !(IsWhitespace(s[i]) && IsWhitespace(s[i + 1]))
  }

  /** Every whitespace character is a plain space. */
  predicate OnlySpaces(s: string) {
    forall i :: 0 <= i < |s| && IsWhitespace(s[i]) ==> s[i] == ' '
  }

  /** Length of the leading whitespace run. */
  function LeadingWhitespace(s: string): (n: nat)
    ensures n <= |s|
    ensures forall j :: 0 <= j < n ==> IsWhitespace(s[j])
    ensures n < |s| ==> !IsWhitespace(s[n])
  {
    if s == [] || !IsWhitespace(s[0]) then 0 else 1 + LeadingWhitespace(s[1..])
  }

  /** Length of the trailing whitespace run. */
  function TrailingWhitespace(s: string): (n: nat)
    ensures n <= |s|
    ensures forall j :: |s| - n <= j < |s| ==> IsWhitespace(s[j])
    ensures n < |s| ==> !IsWhitespace(s[|s| - n - 1])
  {
    if s == [] || !IsWhitespace(s[|s| - 1]) then 0
    else 1 + TrailingWhitespace(s[..|s| - 1])
  }

  /** `String.prototype.trim`: the infix of `s` left after removing the
      whitespace at both ends. */
  function Trim(s: string): (r: string)
    ensures r == [] <==> Blank(s)
    ensures r != [] ==> !IsWhitespace(r[0]) && !IsWhitespace(r[|r| - 1])
    ensures exists i :: 0 <= i <= |s| - |r| && r == s[i..i + |r|]
                        && Blank(s[..i]) && Blank(s[i + |r|..])
  {
    var i := LeadingWhitespace(s);
    if i == |s| then
      assert s[..0] == [] && s[0 + 0..] == s;
      []
    else
      var n := TrailingWhitespace(s);
      assert !IsWhitespace(s[i]);
      assert n < |s| - i;
      var r := s[i..|s| - n];
      assert r == s[i..i + |r|];
      assert s[i + |r|..] == s[|s| - n..];
      var head, tail := s[..i], s[|s| - n..];
      assert Blank(head) by {
        forall j | 0 <= j < |head| ensures IsWhitespace(head[j]) { assert head[j] == s[j]; }
      }
      assert Blank(tail) by {
        forall j | 0 <= j < |tail| ensures IsWhitespace(tail[j]) { assert tail[j] == s[|s| - n + j]; }
      }
      r
  }

  /** `replace(/\s+/g, ' ')`: every maximal run of whitespace becomes a
      single space. */
  function Collapse(s: string): (r: string)
    ensures |r| <= |s|
    ensures r == [] <==> s == []
    decreases |s|
  {
    if s == [] then []
    else if IsWhitespace(s[0]) then
      var n := LeadingWhitespace(s);
      [' '] + Collapse(s[n..])
    else
      [s[0]] + Collapse(s[1..])
  }

  /** One step of `Collapse`: the first character, or a space for the
      leading run, followed by the collapse of what comes after it. */
  lemma CollapseStep(s: string)
    requires s != []
    ensures var n := if IsWhitespace(s[0]) then LeadingWhitespace(s) else 1;
            && 1 <= n <= |s|
            && (IsWhitespace(s[0]) && n < |s| ==> !IsWhitespace(s[n]))
            && Collapse(s) == [if IsWhitespace(s[0]) then ' ' else s[0]] + Collapse(s[n..])
  {
  }

  /** Collapsing keeps whether the text ends in whitespace. */
  lemma {:induction false} CollapseLast(s: string)
    requires s != []
    ensures IsWhitespace(Collapse(s)[|Collapse(s)| - 1]) <==> IsWhitespace(s[|s| - 1])
    decreases |s|
  {
    CollapseStep(s);
    var n := if IsWhitespace(s[0]) then LeadingWhitespace(s) else 1;
    var rest := s[n..];
    if rest != [] {
      CollapseLast(rest);
      assert rest[|rest| - 1] == s[|s| - 1];
    }
  }

  /** After collapsing, whitespace is single spaces only. */
  lemma {:induction false} CollapseSpacing(s: string)
    ensures OnlySpaces(Collapse(s)) && NoDoubleWhitespace(Collapse(s))
    decreases |s|
  {
    if s != [] {
      CollapseStep(s);
      var n := if IsWhitespace(s[0]) then LeadingWhitespace(s) else 1;
      var r, rest := Collapse(s), Collapse(s[n..]);
      CollapseSpacing(s[n..]);
      if s[n..] != [] {
        assert s[n..][0] == s[n];
        CollapseStep(s[n..]);
      }
      forall i | 0 <= i < |r| && IsWhitespace(r[i]) ensures r[i] == ' ' {
        if i > 0 { assert r[i] == rest[i - 1]; }
      }
      forall i | 0 <= i < |r| - 1 ensures !(IsWhitespace(r[i]) && IsWhitespace(r[i + 1])) {
        if i > 0 { assert r[i] == rest[i - 1] && r[i + 1] == rest[i]; }
      }
    }
  }

  /** What collapsing leaves: single spaces between visible characters,
      with whitespace at either end exactly where the input had it. */
  lemma CollapseShape(s: string)
    ensures var r := Collapse(s);
            && (s != [] ==> (IsWhitespace(r[0]) <==> IsWhitespace(s[0])))
            && (s != [] ==> (IsWhitespace(r[|r| - 1]) <==> IsWhitespace(s[|s| - 1])))
            && OnlySpaces(r)
            && NoDoubleWhitespace(r)
  {
    if s != [] {
      CollapseStep(s);
      CollapseLast(s);
    }
    CollapseSpacing(s);
  }

  /** The characters of `s` that are not whitespace, in order. */
  function Visible(s: string): string
  {
    if s == [] then []
    else (if IsWhitespace(s[0]) then [] else [s[0]]) + Visible(s[1..])
  }

  lemma {:induction false} VisibleConcat(a: string, b: string)
    ensures Visible(a + b) == Visible(a) + Visible(b)
    decreases |a|
  {
    if a != [] {
      assert (a + b)[1..] == a[1..] + b;
      VisibleConcat(a[1..], b);
    } else {
      assert a + b == b;
    }
  }

  lemma {:induction false} VisibleBlank(w: string)
    requires forall j :: 0 <= j < |w| ==> IsWhitespace(w[j])
    ensures Visible(w) == []
    decreases |w|
  {
    if w != [] {
      VisibleBlank(w[1..]);
    }
  }

  /** Collapsing whitespace keeps every other character, in order. */
  lemma {:induction false} CollapseKeepsVisible(s: string)
    ensures Visible(Collapse(s)) == Visible(s)
    decreases |s|
  {
    if s != [] {
      if IsWhitespace(s[0]) {
        var n := LeadingWhitespace(s);
        CollapseKeepsVisible(s[n..]);
        VisibleConcat([' '], Collapse(s[n..]));
        assert s == s[..n] + s[n..];
        VisibleConcat(s[..n], s[n..]);
        VisibleBlank(s[..n]);
      } else {
        CollapseKeepsVisible(s[1..]);
        VisibleConcat([s[0]], Collapse(s[1..]));
      }
    }
  }

  /** The leading whitespace run of `a + b` is that of `a`, unless `a` is
      all whitespace and `b` starts with more. */
  lemma {:induction false} LeadingWhitespaceConcat(a: string, b: string)
    requires LeadingWhitespace(a) < |a| || b == [] || !IsWhitespace(b[0])
    ensures LeadingWhitespace(a + b) == LeadingWhitespace(a)
    decreases |a|
  {
    if a == [] {
      assert a + b == b;
    } else {
      assert (a + b)[0] == a[0];
      if IsWhitespace(a[0]) {
        assert (a + b)[1..] == a[1..] + b;
        LeadingWhitespaceConcat(a[1..], b);
      }
    }
  }

  /** A visible character is kept as it is. */
  lemma CollapseCons(c: char, t: string)
    requires !IsWhitespace(c)
    ensures Collapse([c] + t) == [c] + Collapse(t)
  {
    assert ([c] + t)[1..] == t;
  }

  /** A whole run of whitespace, however long, becomes one space. */
  lemma CollapseRun(w: string, t: string)
    requires w != [] && Blank(w)
    requires t == [] || !IsWhitespace(t[0])
    ensures Collapse(w + t) == [' '] + Collapse(t)
  {
    assert LeadingWhitespace(w) == |w|;
    LeadingWhitespaceConcat(w, t);
    assert (w + t)[0] == w[0];
    assert (w + t)[|w|..] == t;
  }

  /** Regrouping a concatenation, as a lemma so that the inductive steps
      below get it without the solver searching for it. */
  lemma Associate(x: string, y: string, z: string)
    ensures x + (y + z) == (x + y) + z
  {
  }

  /** Collapsing distributes over concatenation at any boundary that does
      not fall inside a whitespace run. With `CollapseCons` and
      `CollapseRun`, this determines `Collapse` entirely. */
  lemma {:induction false} CollapseConcat(a: string, b: string)
    requires a == [] || b == [] || !IsWhitespace(a[|a| - 1]) || !IsWhitespace(b[0])
    ensures Collapse(a + b) == Collapse(a) + Collapse(b)
    decreases |a|, 1
  {
    if a == [] {
      assert a + b == b;
    } else if !IsWhitespace(a[0]) {
      CollapseConcatVisible(a, b);
    } else {
      CollapseConcatBlank(a, b);
    }
  }

  /** `CollapseConcat` when `a` starts with a visible character. */
  lemma {:induction false} CollapseConcatVisible(a: string, b: string)
    requires a != [] && !IsWhitespace(a[0])
    requires b == [] || !IsWhitespace(a[|a| - 1]) || !IsWhitespace(b[0])
    ensures Collapse(a + b) == Collapse(a) + Collapse(b)
    decreases |a|, 0
  {
    var c, t := a[0], a[1..];
    assert a == [c] + t;
    Associate([c], t, b);
    CollapseCons(c, t + b);
    CollapseCons(c, t);
    CollapseConcat(t, b);
    Associate([c], Collapse(t), Collapse(b));
  }

  /** `CollapseConcat` when `a` starts with whitespace. */
  lemma {:induction false} CollapseConcatBlank(a: string, b: string)
    requires a != [] && IsWhitespace(a[0])
    requires b == [] || !IsWhitespace(a[|a| - 1]) || !IsWhitespace(b[0])
    ensures Collapse(a + b) == Collapse(a) + Collapse(b)
    decreases |a|, 0
  {
    var n := LeadingWhitespace(a);
    var w, t := a[..n], a[n..];
    assert a == w + t;
    assert Blank(w) by {
      forall j | 0 <= j < |w| ensures IsWhitespace(w[j]) { assert w[j] == a[j]; }
    }
    if n < |a| {
      assert t[0] == a[n] && t[|t| - 1] == a[|a| - 1];
      Associate(w, t, b);
      assert (t + b)[0] == t[0];
      CollapseRun(w, t + b);
      CollapseRun(w, t);
      CollapseConcat(t, b);
      Associate([' '], Collapse(t), Collapse(b));
    } else {
      assert a == w && a + [] == a;
      CollapseRun(a, b);
      CollapseRun(a, []);
    }
  }

  /** A string that already has single spaces only is left alone. */
  lemma {:induction false} CollapseFixpoint(s: string)
    requires OnlySpaces(s) && NoDoubleWhitespace(s)
    ensures Collapse(s) == s
    decreases |s|
  {
    if s != [] {
      if IsWhitespace(s[0]) {
        assert LeadingWhitespace(s) == 1 by {
          if |s| > 1 { assert !IsWhitespace(s[1]); }
        }
      }
      CollapseFixpoint(s[1..]);
    }
  }

  /** Collapsing twice is collapsing once. */
  lemma CollapseIdempotent(s: string)
    ensures Collapse(Collapse(s)) == Collapse(s)
  {
    CollapseShape(s);
    CollapseFixpoint(Collapse(s));
  }

  /** Lines 31-36: the trimmed text of the article containers; when that is
      empty, the trimmed text of the whole body with whitespace runs
      collapsed. */
  function SelectText(targeted: string, body: string): (t: string)
    ensures t == [] <==> Blank(targeted) && Blank(body)
    ensures !Blank(targeted) ==> t == Trim(targeted)
    ensures Blank(targeted) ==> t == Collapse(Trim(body))
    ensures Blank(targeted) ==> Visible(t) == Visible(Trim(body))
  {
    var primary := Trim(targeted);
    if primary != [] then primary
    else
      CollapseKeepsVisible(Trim(body));
      Collapse(Trim(body))
  }

  /** What the page fetch and the HTML parser gave: a failure (the request
      or the parse threw), or the text of the article containers and of the
      body. */
  datatype Fetch = FetchFailed | Fetched(targeted: string, body: string)

  /** What `scrapeTextFromURL` settles with: it throws, or it returns a
      string or `null`. */
  datatype Scraped = ScrapeThrew | ScrapeReturned(text: Option<string>)

  /** Lines 24-53. A failed fetch is rethrown; an empty selection gives
      `null`; otherwise the first `PreviewLength` characters of the
      selection. */
  function ScrapeTextFromUrl(fetch: Fetch): (r: Scraped)
    ensures r.ScrapeThrew? <==> fetch.FetchFailed?
    ensures r == ScrapeReturned(None) <==> fetch.Fetched? && Blank(fetch.targeted) && Blank(fetch.body)
    ensures r.ScrapeReturned? && r.text.Some? ==>
              var t, selected := r.text.value, SelectText(fetch.targeted, fetch.body);
              && 1 <= |t| <= PreviewLength
              && t <= selected
              && (t == selected || |t| == PreviewLength)
  {
    match fetch
    case FetchFailed => ScrapeThrew
    case Fetched(targeted, body) =>
      var text := SelectText(targeted, body);
      if text == [] then ScrapeReturned(None)
      else if |text| <= PreviewLength then ScrapeReturned(Some(text))
      else ScrapeReturned(Some(text[..PreviewLength]))
  }

  /** When the article containers hold any text, the body is never looked
      at, and that text is used as it is, without collapsing. */
  lemma PrefersTargetedText(targeted: string, body: string, otherBody: string)
    requires !Blank(targeted)
    ensures ScrapeTextFromUrl(Fetched(targeted, body)) == ScrapeTextFromUrl(Fetched(targeted, otherBody))
    ensures ScrapeTextFromUrl(Fetched(targeted, body)).text.value <= Trim(targeted)
  {
  }

  /** The container text keeps its inner whitespace runs. */
  lemma TargetedTextNotCollapsed()
    ensures ScrapeTextFromUrl(Fetched("a  b", "")) == ScrapeReturned(Some("a  b"))
  {
    assert LeadingWhitespace("a  b") == 0;
    assert TrailingWhitespace("a  b") == 0;
    assert "a  b"[0..4 - 0] == "a  b";
  }

  lemma PrefixClean(t: string, s: string)
    requires t <= s
    requires OnlySpaces(s) && NoDoubleWhitespace(s)
    ensures OnlySpaces(t) && NoDoubleWhitespace(t)
  {
    assert forall i :: 0 <= i < |t| ==> t[i] == s[i];
  }

  /** The body fallback is clean text: it starts and ends with a visible
      character and has single spaces only. */
  lemma FallbackIsClean(targeted: string, body: string)
    requires Blank(targeted) && !Blank(body)
    ensures var t := SelectText(targeted, body);
            && t != []
            && !IsWhitespace(t[0]) && !IsWhitespace(t[|t| - 1])
            && OnlySpaces(t) && NoDoubleWhitespace(t)
  {
    var trimmed := Trim(body);
    assert Trim(targeted) == [] && trimmed != [];
    assert !IsWhitespace(trimmed[0]) && !IsWhitespace(trimmed[|trimmed| - 1]);
    assert SelectText(targeted, body) == Collapse(trimmed);
    CollapseShape(trimmed);
  }

  /** The preview of the body fallback starts with a visible character and
      has single spaces only; it may end in a space where the cut at
      `PreviewLength` falls just after one. */
  lemma FallbackPreviewIsClean(targeted: string, body: string)
    requires Blank(targeted) && !Blank(body)
    ensures var r := ScrapeTextFromUrl(Fetched(targeted, body));
            && r.ScrapeReturned? && r.text.Some?
            && !IsWhitespace(r.text.value[0])
            && OnlySpaces(r.text.value)
            && NoDoubleWhitespace(r.text.value)
  {
    var selected := SelectText(targeted, body);
    FallbackIsClean(targeted, body);
    var t := ScrapeTextFromUrl(Fetched(targeted, body)).text.value;
    assert t[0] == selected[0];
    PrefixClean(t, selected);
  }
}
