/** The client's `isValidURL`: a recognizer for the URL pattern that cuts the
    input at the delimiters `:`, `/`, `?` and `#` (no character class of the
    pattern contains one of them, so the cut is deterministic) and checks
    each part. `IsValidUrlCorrect` proves it accepts exactly the language of
    `UrlPattern.Matches`. */
module UrlValidator {
  import opened Text
  import opened UrlPattern

  /** The host ends at the first of these. */
  const HostStops: set<char> := {':', '/', '?', '#'}
  /** A port, which starts with `:`, ends at the first of these. */
  const PortStops: set<char> := {'/', '?', '#'}
  /** The path ends at the first of these. */
  const PathStops: set<char> := {'?', '#'}
  /** The query ends at the fragment. */
  const QueryStops: set<char> := {'#'}

  /** Length of the scheme `http://` or `https://` that starts `url`, in any
      case. */
  function SchemeLength(url: string): (n: Option<nat>)
    ensures n.Some? ==> n.value <= |url| && SchemeForm(url[..n.value])
  {
    if |url| >= 7 && EqualsIgnoringCase(url[..7], "http://") then Some(7)
    else if |url| >= 8 && EqualsIgnoringCase(url[..8], "https://") then Some(8)
    else None
  }

  /** Cuts `url` into the six parts of the pattern, or gives `None` when it
      does not start with a scheme. */
  function Decompose(url: string): (parts: Option<UrlParts>)
    ensures parts.Some? ==> parts.value.Joined() == url && SchemeForm(parts.value.scheme)
  {
    match SchemeLength(url)
    case None => None
    case Some(n) =>
      var rest := url[n..];
      var h := Cut(rest, HostStops);
      Glue(rest[..h], rest[h..], rest, h);
      Glue(url[..n], rest, url, n);
      Some(CutAfterHost(url[..n], rest[..h], rest[h..]))
  }

  /** Cuts what follows the host into port, path, query and fragment. */
  function CutAfterHost(scheme: string, host: string, t: string): (parts: UrlParts)
    ensures parts.scheme == scheme && parts.host == host
    ensures parts.Joined() == scheme + (host + t)
  {
    var p := if t != [] && t[0] == ':' then Cut(t, PortStops) else 0;
    var afterPort := t[p..];
    var pa := Cut(afterPort, PathStops);
    var afterPath := afterPort[pa..];
    var q := Cut(afterPath, QueryStops);
    var parts := UrlParts(scheme, host, t[..p], afterPort[..pa], afterPath[..q], afterPath[q..]);
    Glue(parts.query, parts.fragment, afterPath, q);
    Glue(parts.path, afterPath, afterPort, pa);
    Glue(parts.port, afterPort, t, p);
    parts
  }

  /** `[a-zA-Z\d]([a-zA-Z\d-]*[a-zA-Z\d])*` read off directly: alphanumeric
      at both ends, hyphens allowed inside. */
  predicate LabelOk(l: string) {
    |l| >= 1 && IsAlnum(l[0]) && IsAlnum(l[|l| - 1]) && AllChars(l, IsLabelChar)
  }

  /** The dot-separated pieces are labels followed by a top-level label. */
  predicate DomainOk(h: string) {
    var pieces := Split(h, '.');
    && |pieces| >= 2
    && (forall i :: 0 <= i < |pieces| - 1 ==> LabelOk(pieces[i]))
    && TldForm(pieces[|pieces| - 1])
  }

  /** Exactly four dot-separated groups of one to three digits. */
  predicate Ipv4Ok(h: string) {
    var pieces := Split(h, '.');
    |pieces| == 4 && forall i :: 0 <= i < 4 ==> OctetForm(pieces[i])
  }

  predicate HostOk(h: string) {
    DomainOk(h) || LocalhostForm(h) || Ipv4Ok(h)
  }

  /** Empty, or a slash followed by slash-separated segments. */
  predicate PathOk(p: string) {
    p == [] || (p[0] == '/' && forall s <- Split(p[1..], '/') :: AllChars(s, IsSegmentChar))
  }

  /** `isValidURL(url)`: whether the whole of `url` matches the pattern. */
  predicate IsValidUrl(url: string) {
    match Decompose(url)
    case None => false
    case Some(parts) =>
      && HostOk(parts.host)
      && PortForm(parts.port)
      && PathOk(parts.path)
      && QueryForm(parts.query)
      && FragmentForm(parts.fragment)
  }

  // ----- Labels -----

  lemma {:induction false} ConcatLabelTails(tails: seq<string>)
    requires forall i :: 0 <= i < |tails| ==> LabelTail(tails[i])
    ensures AllChars(Concat(tails), IsLabelChar)
    ensures Concat(tails) != [] ==> IsAlnum(Concat(tails)[|Concat(tails)| - 1])
    decreases |tails|
  {
    if tails != [] {
      var g := tails[0];
      assert g == g[..|g| - 1] + [g[|g| - 1]];
      AllCharsConcat(g[..|g| - 1], [g[|g| - 1]], IsLabelChar);
      ConcatLabelTails(tails[1..]);
      AllCharsConcat(g, Concat(tails[1..]), IsLabelChar);
    }
  }

  lemma LabelOkSound(l: string)
    requires LabelOk(l)
    ensures LabelForm(l)
  {
    if |l| == 1 {
      assert l[1..] == Concat([]);
    } else {
      var tail := l[1..];
      assert tail[|tail| - 1] == l[|l| - 1];
      var inner := tail[..|tail| - 1];
      assert AllChars(inner, IsLabelChar) by {
        forall j | 0 <= j < |inner| ensures IsLabelChar(inner[j]) { assert inner[j] == l[j + 1]; }
      }
      assert LabelTail(tail);
      assert Concat([tail]) == tail + Concat([]);
      assert forall i :: 0 <= i < |[tail]| ==> LabelTail([tail][i]);
    }
  }

  lemma LabelOkComplete(l: string)
    requires LabelForm(l)
    ensures LabelOk(l)
  {
    var tails: seq<string> :|
      (forall i :: 0 <= i < |tails| ==> LabelTail(tails[i])) && l[1..] == Concat(tails);
    ConcatLabelTails(tails);
    assert l == [l[0]] + l[1..];
    AllCharsConcat([l[0]], l[1..], IsLabelChar);
    if |l| > 1 { assert l[|l| - 1] == l[1..][|l[1..]| - 1]; }
  }

  lemma LabelOkIff(l: string)
    ensures LabelOk(l) <==> LabelForm(l)
  {
    if LabelOk(l) { LabelOkSound(l); }
    if LabelForm(l) { LabelOkComplete(l); }
  }

  // ----- Hosts -----

  lemma DomainOkSound(h: string)
    requires DomainOk(h)
    ensures DomainForm(h)
  {
    var pieces := Split(h, '.');
    var labels, tld := pieces[..|pieces| - 1], pieces[|pieces| - 1];
    assert pieces == labels + [tld];
    SuffixedJoin(labels, tld, '.');
    forall i | 0 <= i < |labels| ensures LabelForm(labels[i]) { LabelOkIff(labels[i]); }
  }

  lemma DomainOkComplete(h: string)
    requires DomainForm(h)
    ensures DomainOk(h)
  {
    var labels, tld :|
      && |labels| >= 1
      && (forall i :: 0 <= i < |labels| ==> LabelForm(labels[i]))
      && TldForm(tld)
      && h == Suffixed(labels, '.') + tld;
    var pieces := labels + [tld];
    SuffixedJoin(labels, tld, '.');
    forall i | 0 <= i < |labels| ensures LabelOk(labels[i]) { LabelOkIff(labels[i]); }
    DomainPiecesDotFree(labels, tld);
    SplitJoin(pieces, '.');
    assert Split(h, '.') == pieces;
    assert |pieces| >= 2 && pieces[|pieces| - 1] == tld;
    assert forall i :: 0 <= i < |pieces| - 1 ==> pieces[i] == labels[i];
  }

  /** Neither labels nor a top-level label contain a dot. */
  lemma DomainPiecesDotFree(labels: seq<string>, tld: string)
    requires forall i :: 0 <= i < |labels| ==> LabelOk(labels[i])
    requires TldForm(tld)
    ensures forall i :: 0 <= i < |labels + [tld]| ==> '.' !in (labels + [tld])[i]
  {
    var pieces := labels + [tld];
    forall i | 0 <= i < |pieces| ensures '.' !in pieces[i] {
      if i < |labels| {
        assert pieces[i] == labels[i];
        assert AllChars(pieces[i], IsLabelChar);
      } else {
        assert AllChars(pieces[i], IsLetter);
      }
    }
  }

  lemma DomainOkIff(h: string)
    ensures DomainOk(h) <==> DomainForm(h)
  {
    if DomainOk(h) { DomainOkSound(h); }
    if DomainForm(h) { DomainOkComplete(h); }
  }

  lemma Ipv4OkSound(h: string)
    requires Ipv4Ok(h)
    ensures Ipv4Form(h)
  {
    var pieces := Split(h, '.');
    var rest := pieces[1..];
    PrefixedJoin('.', rest);
    assert pieces == [pieces[0]] + rest;
    assert h == pieces[0] + Prefixed('.', rest);
    assert forall i :: 0 <= i < |rest| ==> rest[i] == pieces[i + 1];
  }

  lemma Ipv4OkComplete(h: string)
    requires Ipv4Form(h)
    ensures Ipv4Ok(h)
  {
    var first, rest :|
      && OctetForm(first) && |rest| == 3
      && (forall i :: 0 <= i < |rest| ==> OctetForm(rest[i]))
      && h == first + Prefixed('.', rest);
    var pieces := [first] + rest;
    PrefixedJoin('.', rest);
    assert pieces[1..] == rest;
    assert h == Join(pieces, '.');
    OctetsDotFree(pieces);
    SplitJoin(pieces, '.');
  }

  /** Groups of digits contain no dot. */
  lemma OctetsDotFree(pieces: seq<string>)
    requires forall i :: 0 <= i < |pieces| ==> OctetForm(pieces[i])
    ensures forall i :: 0 <= i < |pieces| ==> '.' !in pieces[i]
  {
    forall i | 0 <= i < |pieces| ensures '.' !in pieces[i] {
      assert AllChars(pieces[i], IsDigit);
    }
  }

  lemma Ipv4OkIff(h: string)
    ensures Ipv4Ok(h) <==> Ipv4Form(h)
  {
    if Ipv4Ok(h) { Ipv4OkSound(h); }
    if Ipv4Form(h) { Ipv4OkComplete(h); }
  }

  lemma HostOkIff(h: string)
    ensures HostOk(h) <==> HostForm(h)
  {
    DomainOkIff(h);
    Ipv4OkIff(h);
  }

  predicate IsHostChar(c: char) { IsLabelChar(c) || c == '.' }

  /** No host contains a delimiter that ends it. */
  lemma HostChars(h: string)
    requires HostOk(h)
    ensures AllChars(h, IsHostChar)
  {
    var pieces := Split(h, '.');
    if DomainOk(h) {
      forall i | 0 <= i < |pieces| ensures AllChars(pieces[i], IsHostChar) {
        if i < |pieces| - 1 {
          assert AllChars(pieces[i], IsLabelChar);
        } else {
          assert AllChars(pieces[i], IsLetter);
        }
      }
      AllCharsJoin(pieces, '.', IsHostChar);
    } else if Ipv4Ok(h) {
      forall i | 0 <= i < |pieces| ensures AllChars(pieces[i], IsHostChar) {
        assert AllChars(pieces[i], IsDigit);
      }
      AllCharsJoin(pieces, '.', IsHostChar);
    } else {
      LocalhostShape(h);
    }
  }

  // ----- Paths -----

  lemma PathOkSound(p: string)
    requires PathOk(p)
    ensures PathForm(p)
  {
    if p == [] {
      assert p == Prefixed('/', []);
    } else {
      var segments := Split(p[1..], '/');
      PrefixedJoin('/', segments);
      assert p == [p[0]] + p[1..];
      assert forall i :: 0 <= i < |segments| ==> AllChars(segments[i], IsSegmentChar);
    }
  }

  lemma PathOkComplete(p: string)
    requires PathForm(p)
    ensures PathOk(p)
  {
    var segments :|
      (forall i :: 0 <= i < |segments| ==> AllChars(segments[i], IsSegmentChar))
      && p == Prefixed('/', segments);
    if segments != [] {
      PrefixedJoin('/', segments);
      assert p[1..] == Join(segments, '/');
      forall i | 0 <= i < |segments| ensures '/' !in segments[i] {
        assert AllChars(segments[i], IsSegmentChar);
      }
      SplitJoin(segments, '/');
    }
  }

  lemma PathOkIff(p: string)
    ensures PathOk(p) <==> PathForm(p)
  {
    if PathOk(p) { PathOkSound(p); }
    if PathForm(p) { PathOkComplete(p); }
  }

  predicate IsPathChar(c: char) { IsSegmentChar(c) || c == '/' }

  lemma PathChars(p: string)
    requires PathOk(p)
    ensures AllChars(p, IsPathChar)
  {
    if p != [] {
      var segments := Split(p[1..], '/');
      forall i | 0 <= i < |segments| ensures AllChars(segments[i], IsPathChar) {
        assert AllChars(segments[i], IsSegmentChar);
      }
      AllCharsJoin(segments, '/', IsPathChar);
      assert p == [p[0]] + p[1..];
      AllCharsConcat([p[0]], p[1..], IsPathChar);
    }
  }

  // ----- The whole URL -----

  /** The scheme recognized at the front of a URL is the one it was built
      with. */
  lemma SchemeLengthOf(scheme: string, rest: string)
    requires SchemeForm(scheme)
    ensures SchemeLength(scheme + rest) == Some(|scheme|)
  {
    var url := scheme + rest;
    assert url[..|scheme|] == scheme;
    if |scheme| == 8 {
      assert url[..7][4] == scheme[4];
      assert ToLower(scheme[4]) == 's';
      assert !EqualsIgnoringCase(url[..7], "http://");
    }
  }

  lemma PathStartsWithSlash(p: string)
    requires PathForm(p)
    ensures p != [] ==> p[0] == '/'
  {
    var segments :|
      (forall i :: 0 <= i < |segments| ==> AllChars(segments[i], IsSegmentChar))
      && p == Prefixed('/', segments);
  }

  /** A well-formed split is the one `Decompose` finds: the delimiters leave
      no choice. */
  lemma DecomposeUnique(parts: UrlParts)
    requires parts.WellFormed()
    ensures Decompose(parts.Joined()) == Some(parts)
  {
    HostOkIff(parts.host);
    HostChars(parts.host);
    PathOkIff(parts.path);
    PathChars(parts.path);
    PathStartsWithSlash(parts.path);
    DecomposeOf(parts);
  }

  /** `DecomposeUnique` on what the delimiters need: no part contains the
      delimiter that ends it, and each optional part starts with its own. */
  lemma DecomposeOf(parts: UrlParts)
    requires SchemeForm(parts.scheme)
    requires AllChars(parts.host, IsHostChar)
    requires PortForm(parts.port)
    requires AllChars(parts.path, IsPathChar) && (parts.path != [] ==> parts.path[0] == '/')
    requires QueryForm(parts.query)
    requires FragmentForm(parts.fragment)
    ensures Decompose(parts.Joined()) == Some(parts)
  {
    var UrlParts(scheme, host, port, path, query, fragment) := parts;
    var afterHost := port + (path + (query + fragment));
    var rest := host + afterHost;
    SchemeLengthOf(scheme, rest);
    assert afterHost != [] ==> afterHost[0] in HostStops by {
      if port == [] && path == [] && query == [] { assert afterHost == fragment; }
      else if port == [] && path == [] { assert afterHost == query + fragment; }
      else if port == [] { assert afterHost == path + (query + fragment); }
    }
    CutAt(host, afterHost, HostStops);
    assert parts.Joined()[|scheme|..] == rest;
    CutAfterHostOf(parts);
  }

  lemma CutAfterHostOf(parts: UrlParts)
    requires PortForm(parts.port)
    requires AllChars(parts.path, IsPathChar) && (parts.path != [] ==> parts.path[0] == '/')
    requires QueryForm(parts.query)
    requires FragmentForm(parts.fragment)
    ensures CutAfterHost(parts.scheme, parts.host,
                         parts.port + (parts.path + (parts.query + parts.fragment))) == parts
  {
    var UrlParts(scheme, host, port, path, query, fragment) := parts;
    var afterPath := query + fragment;
    var afterPort := path + afterPath;
    assert afterPath != [] ==> afterPath[0] in PathStops by {
      if query == [] { assert afterPath == fragment; }
    }
    assert afterPort != [] ==> afterPort[0] in PortStops by {
      if path == [] { assert afterPort == afterPath; }
    }
    PortCut(port, afterPort);
    PathCut(path, afterPath);
    QueryCut(query, fragment);
  }

  /** The port is found where it is, and an absent port is not invented. */
  lemma PortCut(port: string, afterPort: string)
    requires PortForm(port)
    requires afterPort != [] ==> afterPort[0] in PortStops
    ensures var t := port + afterPort;
      (if t != [] && t[0] == ':' then Cut(t, PortStops) else 0) == |port|
  {
    if port != [] {
      forall j | 0 <= j < |port| ensures port[j] !in PortStops {
        if j > 0 { assert IsDigit(port[1..][j - 1]); }
      }
      CutAt(port, afterPort, PortStops);
    } else {
      assert port + afterPort == afterPort;
    }
  }

  lemma PathCut(path: string, afterPath: string)
    requires AllChars(path, IsPathChar)
    requires afterPath != [] ==> afterPath[0] in PathStops
    ensures Cut(path + afterPath, PathStops) == |path|
  {
    forall j | 0 <= j < |path| ensures path[j] !in PathStops {
      assert IsPathChar(path[j]);
    }
    CutAt(path, afterPath, PathStops);
  }

  lemma QueryCut(query: string, fragment: string)
    requires QueryForm(query)
    requires FragmentForm(fragment)
    ensures Cut(query + fragment, QueryStops) == |query|
  {
    forall j | 0 <= j < |query| ensures query[j] !in QueryStops {
      if j > 0 { assert IsQueryChar(query[1..][j - 1]); }
    }
    CutAt(query, fragment, QueryStops);
  }

  /** Soundness and completeness: the recognizer accepts exactly the URLs
      that match the pattern. */
  lemma IsValidUrlCorrect(url: string)
    ensures IsValidUrl(url) <==> Matches(url)
  {
    match Decompose(url)
    case None =>
      if Matches(url) {
        var parts: UrlParts :| parts.WellFormed() && parts.Joined() == url;
        DecomposeUnique(parts);
      }
    case Some(parts) =>
      HostOkIff(parts.host);
      PathOkIff(parts.path);
      if Matches(url) {
        var other: UrlParts :| other.WellFormed() && other.Joined() == url;
        DecomposeUnique(other);
      }
  }

  // ----- What the pattern promises, stated on the recognizer -----

  /** Every accepted string starts with `http://` or `https://`, in any
      case. */
  lemma ValidUrlHasScheme(url: string)
    requires IsValidUrl(url)
    ensures || (|url| >= 7 && EqualsIgnoringCase(url[..7], "http://"))
            || (|url| >= 8 && EqualsIgnoringCase(url[..8], "https://"))
  {
    IsValidUrlCorrect(url);
    MatchesHasScheme(url);
  }

  /** The host of an accepted URL has exactly one of the three forms. */
  lemma ValidUrlHostHasOneForm(url: string)
    requires IsValidUrl(url)
    ensures Decompose(url).Some?
    ensures var h := Decompose(url).value.host;
      && HostForm(h)
      && !(DomainForm(h) && LocalhostForm(h))
      && !(DomainForm(h) && Ipv4Form(h))
      && !(LocalhostForm(h) && Ipv4Form(h))
  {
    var h := Decompose(url).value.host;
    HostOkIff(h);
    HostFormsDisjoint(h);
  }

  /** Completeness, for a URL given by its parts. */
  lemma AcceptsParts(parts: UrlParts)
    requires parts.WellFormed()
    ensures IsValidUrl(parts.Joined())
  {
    IsValidUrlCorrect(parts.Joined());
  }

  // ----- The cases the repository's tests check, and two the pattern implies -----

  lemma EmptyPath()
    ensures PathForm("")
  {
    assert "" == Prefixed('/', []);
  }

  /** A word of letters and digits is a label: the first character, then
      the rest as one `[a-zA-Z\d-]*[a-zA-Z\d]` group. */
  lemma AlnumWordIsLabel(w: string)
    requires |w| >= 1 && AllChars(w, IsAlnum)
    ensures LabelForm(w)
  {
    var tails: seq<string> := if |w| == 1 then [] else [w[1..]];
    if |w| > 1 {
      var g := w[1..];
      var front := g[..|g| - 1];
      assert forall j :: 0 <= j < |front| ==> front[j] == w[j + 1];
      assert LabelTail(g);
      assert Concat(tails) == g + Concat([]);
    }
    assert forall i :: 0 <= i < |tails| ==> LabelTail(tails[i]);
  }

  /** `word.tld` is a domain name when the word is letters and digits and
      the top-level label two or more letters. */
  lemma TwoLabelDomain(w: string, tld: string)
    requires |w| >= 1 && AllChars(w, IsAlnum) && TldForm(tld)
    ensures DomainForm(w + "." + tld)
  {
    var labels := [w];
    AlnumWordIsLabel(w);
    assert forall i :: 0 <= i < |labels| ==> LabelForm(labels[i]);
    assert Suffixed(labels, '.') == w + ".";
  }

  lemma ExampleComParts()
    ensures UrlParts("https://", "example.com", "", "", "", "").WellFormed()
  {
    TwoLabelDomain("example", "com");
    assert "example" + "." + "com" == "example.com";
    EmptyPath();
  }

  lemma ExampleComText()
    ensures UrlParts("https://", "example.com", "", "", "", "").Joined() == "https://example.com"
  {
  }

  lemma AcceptsExampleCom()
    ensures IsValidUrl("https://example.com")
  {
    ExampleComParts();
    ExampleComText();
    AcceptsParts(UrlParts("https://", "example.com", "", "", "", ""));
  }

  lemma LocalhostWithPortParts()
    ensures UrlParts("http://", "localhost", ":3000", "", "", "").WellFormed()
  {
    EmptyPath();
    assert PortForm(":3000");
  }

  lemma LocalhostWithPortText()
    ensures UrlParts("http://", "localhost", ":3000", "", "", "").Joined() == "http://localhost:3000"
  {
  }

  lemma AcceptsLocalhostWithPort()
    ensures IsValidUrl("http://localhost:3000")
  {
    LocalhostWithPortParts();
    LocalhostWithPortText();
    AcceptsParts(UrlParts("http://", "localhost", ":3000", "", "", ""));
  }

  /** Matching ignores case in the scheme and the host. */
  lemma UpperCaseScheme()
    ensures SchemeForm("HTTPS://")
  {
    assert EqualsIgnoringCase("HTTPS://", "https://");
  }

  lemma UpperCaseParts()
    ensures UrlParts("HTTPS://", "EXAMPLE.COM", "", "", "", "").WellFormed()
  {
    TwoLabelDomain("EXAMPLE", "COM");
    assert "EXAMPLE" + "." + "COM" == "EXAMPLE.COM";
    EmptyPath();
    UpperCaseScheme();
  }

  lemma UpperCaseText()
    ensures UrlParts("HTTPS://", "EXAMPLE.COM", "", "", "", "").Joined() == "HTTPS://EXAMPLE.COM"
  {
  }

  lemma AcceptsUpperCase()
    ensures IsValidUrl("HTTPS://EXAMPLE.COM")
  {
    UpperCaseParts();
    UpperCaseText();
    AcceptsParts(UrlParts("HTTPS://", "EXAMPLE.COM", "", "", "", ""));
  }

  lemma Octets999()
    ensures Ipv4Form("999.999.999.999")
  {
    var rest := ["999", "999", "999"];
    assert Prefixed('.', rest[2..]) == ".999" + Prefixed('.', []);
    assert Prefixed('.', rest[1..]) == ".999" + Prefixed('.', rest[2..]);
    assert Prefixed('.', rest) == ".999" + Prefixed('.', rest[1..]);
    assert OctetForm("999");
    assert "999.999.999.999" == "999" + Prefixed('.', rest);
  }

  /** The IPv4 branch does not bound each group by 255. */
  lemma OctetsAbove255Parts()
    ensures UrlParts("http://", "999.999.999.999", "", "", "", "").WellFormed()
  {
    Octets999();
    EmptyPath();
  }

  lemma OctetsAbove255Text()
    ensures UrlParts("http://", "999.999.999.999", "", "", "", "").Joined() == "http://999.999.999.999"
  {
  }

  lemma AcceptsOctetsAbove255()
    ensures IsValidUrl("http://999.999.999.999")
  {
    OctetsAbove255Parts();
    OctetsAbove255Text();
    AcceptsParts(UrlParts("http://", "999.999.999.999", "", "", "", ""));
  }

  lemma RejectsInvalidUrl()
    ensures !IsValidUrl("invalid-url")
  {
    var url := "invalid-url";
    assert url[..7][0] == 'i' && url[..8][0] == 'i';
    RejectsWithoutScheme(url);
  }

  lemma RejectsEmpty()
    ensures !IsValidUrl("")
  {
  }

  /** Anything that does not start with a scheme is rejected. */
  lemma RejectsWithoutScheme(url: string)
    requires !(|url| >= 7 && EqualsIgnoringCase(url[..7], "http://"))
    requires !(|url| >= 8 && EqualsIgnoringCase(url[..8], "https://"))
    ensures !IsValidUrl(url)
  {
  }
}
