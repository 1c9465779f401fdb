/** The language of the URL pattern that the client's `isValidURL` tests:
    one anchored, case-insensitive regular expression, written here part by
    part as declarative predicates. Each predicate is commented with the
    piece of the pattern it stands for. Nothing in this module is meant to
    run: `UrlValidator` recognizes the same language by splitting. */
module UrlPattern {
  import opened Text

  // Character classes. The pattern is compiled with the "i" flag but not
  // the "u" flag; case folding then never maps a non-ASCII character onto an
  // ASCII one, so the ASCII classes below match ASCII characters only.

  predicate IsLetter(c: char) { 'a' <= c <= 'z' || 'A' <= c <= 'Z' }

  /** `\d` */
  predicate IsDigit(c: char) { '0' <= c <= '9' }

  /** `[a-zA-Z\d]` */
  predicate IsAlnum(c: char) { IsLetter(c) || IsDigit(c) }

  /** `[a-zA-Z\d-]` */
  predicate IsLabelChar(c: char) { IsAlnum(c) || c == '-' }

  /** `[-a-zA-Z\d%_.~+]` */
  predicate IsSegmentChar(c: char) {
    IsAlnum(c) || c == '-' || c == '%' || c == '_' || c == '.' || c == '~' || c == '+'
  }

  /** `[;&a-zA-Z\d%_.~+=-]` */
  predicate IsQueryChar(c: char) {
    IsAlnum(c) || c == ';' || c == '&' || c == '%' || c == '_' || c == '.'
    || c == '~' || c == '+' || c == '=' || c == '-'
  }

  /** `[-a-zA-Z\d_]` */
  predicate IsFragmentChar(c: char) { IsAlnum(c) || c == '-' || c == '_' }

  /** ASCII lower case, the folding the "i" flag applies to literal letters. */
  function ToLower(c: char): (r: char)
    ensures IsLetter(c) ==> 'a' <= r <= 'z'
    ensures !IsLetter(c) || 'a' <= c <= 'z' ==> r == c
  {
    if 'A' <= c <= 'Z' then (c as int - 'A' as int + 'a' as int) as char else c
  }

  /** Under the "i" flag two characters match exactly when they are equal
      or are the upper- and lower-case forms of one ASCII letter, whose
      codes are 32 apart. */
  lemma ToLowerCaseMates(a: char, b: char)
    ensures ToLower(a) == ToLower(b) <==>
              || a == b
              || (IsLetter(a) && IsLetter(b) && (a as int - b as int == 32 || b as int - a as int == 32))
  {
  }

  /** `a` matches the literal `b` under the "i" flag. */
  predicate EqualsIgnoringCase(a: string, b: string) {
    |a| == |b| && forall i :: 0 <= i < |a| ==> ToLower(a[i]) == ToLower(b[i])
  }

  /** `https?:\/\/` */
  predicate SchemeForm(s: string) {
    EqualsIgnoringCase(s, "http://") || EqualsIgnoringCase(s, "https://")
  }

  /** `[a-zA-Z\d-]*[a-zA-Z\d]` */
  predicate LabelTail(g: string) {
    |g| >= 1 && IsAlnum(g[|g| - 1]) && AllChars(g[..|g| - 1], IsLabelChar)
  }

  /** `[a-zA-Z\d]([a-zA-Z\d-]*[a-zA-Z\d])*` */
  ghost predicate LabelForm(l: string) {
    && |l| >= 1
    && IsAlnum(l[0])
    && exists tails: seq<string> ::
         (forall i :: 0 <= i < |tails| ==> LabelTail(tails[i])) && l[1..] == Concat(tails)
  }

  /** `[a-zA-Z]{2,}` */
  predicate TldForm(t: string) { |t| >= 2 && AllChars(t, IsLetter) }

  /** `(label\.)+[a-zA-Z]{2,}` */
  ghost predicate DomainForm(h: string) {
    exists labels: seq<string>, tld: string ::
      && |labels| >= 1
      && (forall i :: 0 <= i < |labels| ==> LabelForm(labels[i]))
      && TldForm(tld)
      && h == Suffixed(labels, '.') + tld
  }

  /** `localhost`, in any case */
  predicate LocalhostForm(h: string) { EqualsIgnoringCase(h, "localhost") }

  /** `\d{1,3}`: no bound of 255 on the value */
  predicate OctetForm(g: string) { 1 <= |g| <= 3 && AllChars(g, IsDigit) }

  /** `\d{1,3}(\.\d{1,3}){3}` */
  ghost predicate Ipv4Form(h: string) {
    exists first: string, rest: seq<string> ::
      && OctetForm(first)
      && |rest| == 3
      && (forall i :: 0 <= i < |rest| ==> OctetForm(rest[i]))
      && h == first + Prefixed('.', rest)
  }

  /** The host alternation: domain name, `localhost` or IPv4 literal. */
  ghost predicate HostForm(h: string) {
    DomainForm(h) || LocalhostForm(h) || Ipv4Form(h)
  }

  /** `(\:\d+)?` */
  predicate PortForm(p: string) {
    p == [] || (|p| >= 2 && p[0] == ':' && AllChars(p[1..], IsDigit))
  }

  /** `(\/[-a-zA-Z\d%_.~+]*)*`: segments may be empty */
  ghost predicate PathForm(p: string) {
    exists segments: seq<string> ::
      (forall i :: 0 <= i < |segments| ==> AllChars(segments[i], IsSegmentChar))
      && p == Prefixed('/', segments)
  }

  /** `(\?[;&a-zA-Z\d%_.~+=-]*)?` */
  predicate QueryForm(q: string) {
    q == [] || (q[0] == '?' && AllChars(q[1..], IsQueryChar))
  }

  /** `(\#[-a-zA-Z\d_]*)?` */
  predicate FragmentForm(f: string) {
    f == [] || (f[0] == '#' && AllChars(f[1..], IsFragmentChar))
  }

  /** A URL cut into the six parts of the pattern, in order. */
  datatype UrlParts = UrlParts(
    scheme: string, host: string, port: string,
    path: string, query: string, fragment: string)
  {
    function Joined(): string {
      scheme + (host + (port + (path + (query + fragment))))
    }

    /** Each part has the shape its piece of the pattern demands. */
    ghost predicate WellFormed() {
      && SchemeForm(scheme)
      && HostForm(host)
      && PortForm(port)
      && PathForm(path)
      && QueryForm(query)
      && FragmentForm(fragment)
    }
  }

  /** The whole pattern, anchored at both ends: the URL is the concatenation
      of the six parts, in this order and with nothing else. */
  ghost predicate Matches(url: string) {
    exists parts: UrlParts :: parts.WellFormed() && parts.Joined() == url
  }

  /** Every matching URL starts with `http://` or `https://` in some mix of
      upper and lower case. */
  lemma MatchesHasScheme(url: string)
    requires Matches(url)
    ensures || (|url| >= 7 && EqualsIgnoringCase(url[..7], "http://"))
            || (|url| >= 8 && EqualsIgnoringCase(url[..8], "https://"))
  {
    var parts: UrlParts :| parts.WellFormed() && parts.Joined() == url;
    assert url[..|parts.scheme|] == parts.scheme;
  }

  /** A domain name ends in a letter and has a dot after its first label. */
  lemma DomainShape(h: string)
    requires DomainForm(h)
    ensures |h| >= 1 && IsLetter(h[|h| - 1])
    ensures exists k :: 0 <= k < |h| && h[k] == '.'
  {
    var labels, tld :|
      && |labels| >= 1
      && (forall i :: 0 <= i < |labels| ==> LabelForm(labels[i]))
      && TldForm(tld)
      && h == Suffixed(labels, '.') + tld;
    assert h[|h| - 1] == tld[|tld| - 1];
    var k := |labels[0]|;
    assert Suffixed(labels, '.') == labels[0] + ['.'] + Suffixed(labels[1..], '.');
    assert h[k] == '.';
  }

  /** `localhost` in any case is nine letters. */
  lemma LocalhostShape(h: string)
    requires LocalhostForm(h)
    ensures |h| == 9 && AllChars(h, IsLetter)
  {
    forall i | 0 <= i < |h| ensures IsLetter(h[i]) {
      assert ToLower(h[i]) == ToLower("localhost"[i]);
    }
  }

  /** An IPv4 literal starts and ends with a digit. */
  lemma Ipv4Shape(h: string)
    requires Ipv4Form(h)
    ensures |h| >= 1 && IsDigit(h[0]) && IsDigit(h[|h| - 1])
  {
    var first, rest :|
      && OctetForm(first) && |rest| == 3
      && (forall i :: 0 <= i < |rest| ==> OctetForm(rest[i]))
      && h == first + Prefixed('.', rest);
    var last := rest[2];
    assert rest == rest[..2] + [last];
    PrefixedSnoc('.', rest[..2], last);
    assert h == first + Prefixed('.', rest[..2]) + ['.'] + last;
    assert h[|h| - 1] == last[|last| - 1];
    assert h[0] == first[0];
  }

  /** The three host forms exclude one another: an accepted host is exactly
      one of a domain name, `localhost` and an IPv4 literal. */
  lemma HostFormsDisjoint(h: string)
    ensures !(DomainForm(h) && LocalhostForm(h))
    ensures !(DomainForm(h) && Ipv4Form(h))
    ensures !(LocalhostForm(h) && Ipv4Form(h))
  {
    if DomainForm(h) { DomainShape(h); }
    if LocalhostForm(h) { LocalhostShape(h); }
    if Ipv4Form(h) { Ipv4Shape(h); }
  }
}
