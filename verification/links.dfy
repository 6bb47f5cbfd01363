/** The link filter `legit_link` and the part of `urlparse` it depends on:
    cleaning the reference, splitting off its scheme, and the netloc check
    that makes `urlparse` raise `ValueError`. */
module Links {
  import opened Wrappers
  import opened Text

  /** A C0 control character or a space, U+0000 to U+0020. */
  predicate IsC0OrSpace(c: char) {
    c <= ' '
  }

  /** The characters `urlsplit` deletes wherever they occur: tab, CR, LF. */
  predicate IsUnsafe(c: char) {
    c == '\t' || c == '\r' || c == '\n'
  }

  /** `s.lstrip` of the C0 controls and the space. */
  function StripLeading(s: string): (t: string)
    ensures |t| <= |s|
    ensures forall i | 0 <= i < |t| :: t[i] == s[|s| - |t| + i]
    ensures t != [] ==> !IsC0OrSpace(t[0])
  {
    if s != [] && IsC0OrSpace(s[0]) then StripLeading(s[1..]) else s
  }

  /** Only C0 controls and spaces are stripped. */
  lemma {:induction false} StripLeadingDropsBlanks(s: string)
    ensures forall i | 0 <= i < |s| - |StripLeading(s)| :: IsC0OrSpace(s[i])
    decreases |s|
  {
    if s != [] && IsC0OrSpace(s[0]) {
      StripLeadingDropsBlanks(s[1..]);
      assert forall i | 1 <= i < |s| - |StripLeading(s)| :: s[i] == s[1..][i - 1];
    }
  }

  /** `s` with every tab, CR and LF deleted, the other characters kept in order. */
  function RemoveUnsafe(s: string): (t: string)
    ensures |t| <= |s|
    decreases |s|
  {
    if s == [] then []
    else if IsUnsafe(s[0]) then RemoveUnsafe(s[1..])
    else [s[0]] + RemoveUnsafe(s[1..])
  }

  /** `RemoveUnsafe` deletes the tabs, CRs and LFs and keeps every other
      character. */
  lemma {:induction false} RemoveUnsafeSpec(s: string)
    ensures forall i | 0 <= i < |RemoveUnsafe(s)| :: !IsUnsafe(RemoveUnsafe(s)[i]) && RemoveUnsafe(s)[i] in s
    ensures forall c | c in s && !IsUnsafe(c) :: c in RemoveUnsafe(s)
    decreases |s|
  {
    if s != [] {
      RemoveUnsafeSpec(s[1..]);
      assert forall c | c in s :: c == s[0] || c in s[1..];
    }
  }

  lemma {:induction false} RemoveUnsafeAppend(a: string, b: string)
    ensures RemoveUnsafe(a + b) == RemoveUnsafe(a) + RemoveUnsafe(b)
    decreases |a|
  {
    if a == [] {
      assert a + b == b;
    } else {
      assert (a + b)[0] == a[0] && (a + b)[1..] == a[1..] + b;
      RemoveUnsafeAppend(a[1..], b);
    }
  }

  /** Text without a tab, CR or LF is left as it is. */
  lemma {:induction false} RemoveUnsafeKeepsSafe(s: string)
    requires forall i | 0 <= i < |s| :: !IsUnsafe(s[i])
    ensures RemoveUnsafe(s) == s
    decreases |s|
  {
    if s != [] {
      RemoveUnsafeKeepsSafe(s[1..]);
    }
  }

  /** The text `urlsplit` goes on to parse: leading C0 controls and spaces
      stripped, then tabs, CRs and LFs removed. */
  function Clean(link: string): string {
    RemoveUnsafe(StripLeading(link))
  }

  /** Text without C0 controls or spaces. */
  predicate Printable(s: string) {
    forall i | 0 <= i < |s| :: !IsC0OrSpace(s[i])
  }

  /** A reference without C0 controls or spaces is parsed as written. */
  lemma CleanKeepsPrintable(link: string)
    requires Printable(link)
    ensures Clean(link) == link
  {
    RemoveUnsafeKeepsSafe(link);
  }

  /** Cleaning keeps a printable prefix without a tab, CR or LF in place. */
  lemma CleanKeepsPrefix(link: string, p: string)
    requires p <= link && p != [] && !IsC0OrSpace(p[0])
    requires forall i | 0 <= i < |p| :: !IsUnsafe(p[i])
    ensures p <= Clean(link)
  {
    assert link[0] == p[0];
    assert StripLeading(link) == link;
    var tail := link[|p|..];
    assert link == p + tail;
    RemoveUnsafeAppend(p, tail);
    RemoveUnsafeKeepsSafe(p);
    assert Clean(link) == p + RemoveUnsafe(tail);
  }

  /** Cleaning only deletes characters. */
  lemma CleanOnlyDeletes(link: string, c: char)
    requires c in Clean(link)
    ensures c in link
  {
    var s := StripLeading(link);
    RemoveUnsafeSpec(s);
    assert c in s;
    var i :| 0 <= i < |s| && s[i] == c;
    assert link[|link| - |s| + i] == c;
  }

  /** A character `urlparse` accepts inside a scheme: an ASCII letter, a digit,
      or one of `+`, `-`, `.`. */
  predicate IsSchemeChar(c: char) {
    IsAsciiLetter(c) || IsDigit(c) || c == '+' || c == '-' || c == '.'
  }

  /** The scheme syntax of section 3.1 of RFC 3986:
      ALPHA *( ALPHA / DIGIT / "+" / "-" / "." ). */
  predicate SchemeSyntax(s: string) {
    |s| > 0 && IsAsciiLetter(s[0]) && forall i | 0 <= i < |s| :: IsSchemeChar(s[i])
  }

  /** A cleaned reference split into its scheme and what follows it. */
  datatype Split = Split(scheme: string, rest: string)

  /** How `urlsplit` splits off the scheme of cleaned text `url`: the text
      before the first `:`, lower-cased, when that text is scheme syntax;
      otherwise the scheme is empty and nothing is split off. */
  function SplitScheme(url: string): Split {
    match IndexOf(url, ':')
    case None => Split("", url)
    case Some(n) =>
      if n > 0 && SchemeSyntax(url[..n]) then Split(Lower(url[..n]), url[n + 1..]) else Split("", url)
  }

  /** The scheme `SplitScheme` finds is the text before the first `:`, which
      is scheme syntax, lower-cased, and the rest is what follows that `:`;
      when it finds none, no text before a first `:` is scheme syntax and
      nothing is split off. */
  lemma SplitSchemeSpec(url: string)
    ensures var s := SplitScheme(url);
      s.scheme != "" ==>
        var n := |s.scheme|;
        && n < |url| && url[n] == ':' && ':' !in url[..n]
        && SchemeSyntax(url[..n]) && s.scheme == Lower(url[..n])
        && s.rest == url[n + 1..]
    ensures var s := SplitScheme(url);
      s.scheme == "" ==>
        && s.rest == url
        && forall n | 0 <= n < |url| && url[n] == ':' && ':' !in url[..n] :: !SchemeSyntax(url[..n])
  {
  }

  /** The `scheme` field `urlparse` reports for `link`. */
  function Scheme(link: string): string {
    SplitScheme(Clean(link)).scheme
  }

  /** A character that ends the netloc: `/`, `?` or `#`. */
  predicate IsDelimiter(c: char) {
    c == '/' || c == '?' || c == '#'
  }

  /** Text without `/`, `?` or `#`. */
  predicate NoDelimiter(s: string) {
    forall i | 0 <= i < |s| :: !IsDelimiter(s[i])
  }

  /** The length of the netloc at the start of `s`: up to the first `/`,
      `?` or `#`, or all of `s`. */
  function NetlocLength(s: string): (n: nat)
    ensures n <= |s|
    ensures forall i | 0 <= i < n :: !IsDelimiter(s[i])
    ensures n < |s| ==> IsDelimiter(s[n])
  {
    if s == [] || IsDelimiter(s[0]) then 0
    else
      var n := NetlocLength(s[1..]);
      assert forall i | 1 <= i < n + 1 :: s[i] == s[1..][i - 1];
      n + 1
  }

  /** The netloc `urlsplit` finds in what follows the scheme: after a
      leading `//`, up to the first `/`, `?` or `#`; none without `//`. */
  function Netloc(rest: string): (netloc: string)
    ensures "//" <= rest ==> 2 + |netloc| <= |rest| && netloc == rest[2..2 + |netloc|]
    ensures "//" <= rest ==> forall i | 0 <= i < |netloc| :: !IsDelimiter(netloc[i])
    ensures "//" <= rest && 2 + |netloc| < |rest| ==> IsDelimiter(rest[2 + |netloc|])
    ensures !("//" <= rest) ==> netloc == ""
  {
    if "//" <= rest then rest[2..2 + NetlocLength(rest[2..])] else ""
  }

  /** `urlsplit` raises `ValueError` ("Invalid IPv6 URL") when the netloc
      holds a `[` without a `]`, or a `]` without a `[`. Only a reference
      with an authority part (`//` after the scheme) can raise. */
  predicate UrlsplitRaises(link: string): (raises: bool)
    ensures raises ==> "//" <= SplitScheme(Clean(link)).rest
  {
    var netloc := Netloc(SplitScheme(Clean(link)).rest);
    ('[' in netloc) != (']' in netloc)
  }

  /** A reference without brackets never makes `urlsplit` raise. */
  lemma NoBracketNoRaise(link: string)
    requires '[' !in link && ']' !in link
    ensures !UrlsplitRaises(link)
  {
    var url := Clean(link);
    var rest := SplitScheme(url).rest;
    SplitSchemeSpec(url);
    var netloc := Netloc(rest);
    forall c | c in netloc
      ensures c in link
    {
      var i :| 0 <= i < |netloc| && netloc[i] == c;
      assert rest[2 + i] == c;
      assert c in url;
      CleanOnlyDeletes(link, c);
    }
  }

  /** What a call of `legit_link` does: return `True`, return `False`, or
      let the `ValueError` of `urlparse` escape. */
  datatype Verdict = Accept | Reject | Raise

  /** `legit_link`: is a raw `href`/`src` value worth crawling? Empty and
      fragment-only references are not; protocol-relative ones are, before
      anything is parsed; anything else is parsed, which may raise, and is
      worth crawling exactly when its scheme is `http` or `https`. */
  function LegitLink(link: string): (v: Verdict)
    ensures link == "" || "#" <= link ==> v == Reject
    ensures "//" <= link ==> v == Accept
    ensures v == Raise ==> UrlsplitRaises(link)
  {
    assert "#" <= link ==> link[0] == '#';
    assert "//" <= link ==> link[0] == '/';
    if link == "" || "#" <= link then Reject
    else if "//" <= link then Accept
    else if UrlsplitRaises(link) then Raise
    else if Scheme(link) in {"http", "https"} then Accept
    else Reject
  }

  /** `link` starts with `p` when its letters are lower-cased. */
  predicate StartsWithIgnoringCase(link: string, p: string) {
    |p| <= |link| && Lower(link[..|p|]) == p
  }

  /** A lower-case word of ASCII letters, such as `http`. */
  predicate LowerWord(w: string) {
    |w| > 0 && forall i | 0 <= i < |w| :: 'a' <= w[i] <= 'z'
  }

  lemma {:induction false} SchemeIsWordOnlyIfPrefix(url: string, w: string)
    requires LowerWord(w) && SplitScheme(url).scheme == w
    ensures StartsWithIgnoringCase(url, w + ":")
  {
    SplitSchemeSpec(url);
    var n := |w|;
    assert url[n] == ':' && Lower(url[..n]) == w;
    forall i | 0 <= i < n + 1
      ensures Lower(url[..n + 1])[i] == (w + ":")[i]
    {
      if i < n {
        assert Lower(url[..n])[i] == LowerChar(url[i]);
      }
    }
    assert Lower(url[..n + 1]) == w + ":";
  }

  lemma {:induction false} SchemeIsWordIfPrefix(url: string, w: string)
    requires LowerWord(w) && StartsWithIgnoringCase(url, w + ":")
    ensures SplitScheme(url).scheme == w
  {
    var n := |w|;
    var pre := Lower(url[..n + 1]);
    assert pre[n] == ':' == LowerChar(url[n]);
    assert url[n] == ':';
    forall i | 0 <= i < n
      ensures IsAsciiLetter(url[i]) && url[i] != ':' && LowerChar(url[i]) == w[i]
    {
      assert pre[i] == w[i] == LowerChar(url[i]);
    }
    var k := IndexOf(url, ':');
    assert k.Some?;
    assert k.value == n;
    assert SchemeSyntax(url[..n]);
    assert Lower(url[..n]) == w;
  }

  /** For a lower-case word `w`, `urlparse` reports scheme `w` exactly when
      the cleaned reference starts with `w:` in any letter case. */
  lemma SchemeIsWord(link: string, w: string)
    requires LowerWord(w)
    ensures Scheme(link) == w <==> StartsWithIgnoringCase(Clean(link), w + ":")
  {
    if Scheme(link) == w {
      SchemeIsWordOnlyIfPrefix(Clean(link), w);
    }
    if StartsWithIgnoringCase(Clean(link), w + ":") {
      SchemeIsWordIfPrefix(Clean(link), w);
    }
  }

  /** An independent description of the filter. A reference is accepted
      exactly when it is protocol-relative, or is neither empty nor a
      fragment, parses, and once cleaned starts with `http:` or `https:` in
      any letter case. It raises exactly when it is neither empty, a
      fragment nor protocol-relative and its netloc has unbalanced
      brackets. So `ftp:`, `javascript:`, `mailto:` and scheme-less
      relative paths are all rejected or raise. */
  lemma {:induction false} LegitLinkByPrefix(link: string)
    ensures LegitLink(link) == Accept <==>
      || "//" <= link
      || (&& link != "" && !("#" <= link) && !UrlsplitRaises(link)
          && (StartsWithIgnoringCase(Clean(link), "http:") || StartsWithIgnoringCase(Clean(link), "https:")))
    ensures LegitLink(link) == Raise <==>
      link != "" && !("#" <= link) && !("//" <= link) && UrlsplitRaises(link)
  {
    SchemeIsWord(link, "http");
    SchemeIsWord(link, "https");
    assert "http" + ":" == "http:";
    assert "https" + ":" == "https:";
    assert "#" <= link ==> link[0] == '#';
    assert "//" <= link ==> link[0] == '/';
  }

  lemma LowerKeepsLowerCase(s: string)
    requires forall i | 0 <= i < |s| :: !IsAsciiUpper(s[i])
    ensures Lower(s) == s
  {
  }

  /** A reference with a prefix that has no upper-case letter starts with
      that prefix ignoring case. */
  lemma PrefixIgnoringCase(link: string, p: string)
    requires p <= link
    requires forall i | 0 <= i < |p| :: !IsAsciiUpper(p[i])
    ensures StartsWithIgnoringCase(link, p)
  {
    assert link[..|p|] == p;
    LowerKeepsLowerCase(p);
  }

  /** A word of lower-case letters and colons, such as `http:`. */
  predicate SchemePrefix(w: string) {
    |w| > 0 && forall i | 0 <= i < |w| :: 'a' <= w[i] <= 'z' || w[i] == ':'
  }

  /** A character that lower-cases to a letter or a colon is neither blank
      nor deleted. */
  lemma PrefixCharKept(c: char)
    requires 'a' <= LowerChar(c) <= 'z' || LowerChar(c) == ':'
    ensures !IsC0OrSpace(c) && !IsUnsafe(c)
  {
  }

  /** Text that lower-cases to such a word has no blank and no deleted
      character. */
  lemma PrefixKept(p: string, w: string)
    requires SchemePrefix(w) && Lower(p) == w
    ensures forall i | 0 <= i < |p| :: !IsC0OrSpace(p[i]) && !IsUnsafe(p[i])
  {
    forall i | 0 <= i < |p|
      ensures !IsC0OrSpace(p[i]) && !IsUnsafe(p[i])
    {
      assert LowerChar(p[i]) == w[i];
      PrefixCharKept(p[i]);
    }
  }

  /** Text that begins with `p` starts with whatever `p` lower-cases to. */
  lemma PrefixStartsIgnoringCase(c: string, p: string, w: string)
    requires p <= c && Lower(p) == w
    ensures StartsWithIgnoringCase(c, w)
  {
    assert c[..|w|] == p;
  }

  /** A reference that starts with such a word in any letter case still
      starts with it once cleaned: none of its first characters is blank or
      deleted. */
  lemma CleanKeepsPrefixIgnoringCase(link: string, w: string)
    requires SchemePrefix(w) && StartsWithIgnoringCase(link, w)
    ensures StartsWithIgnoringCase(Clean(link), w)
  {
    var p := link[..|w|];
    PrefixKept(p, w);
    CleanKeepsPrefix(link, p);
    PrefixStartsIgnoringCase(Clean(link), p, w);
  }

  /** A reference that starts with `http:` or `https:` in any letter case
      is accepted, unless its netloc has unbalanced brackets, when
      `urlparse` raises. */
  lemma AcceptsWebSchemes(link: string)
    requires StartsWithIgnoringCase(link, "http:") || StartsWithIgnoringCase(link, "https:")
    ensures LegitLink(link) == (if UrlsplitRaises(link) then Raise else Accept)
  {
    var w := if StartsWithIgnoringCase(link, "http:") then "http:" else "https:";
    assert link != "" && !("#" <= link) && !("//" <= link) by {
      assert LowerChar(link[0]) == Lower(link[..|w|])[0] == 'h';
    }
    CleanKeepsPrefixIgnoringCase(link, w);
    LegitLinkByPrefix(link);
  }

  /** In particular a reference that starts with `http:` or `https:` in
      lower case is accepted unless `urlparse` raises. */
  lemma AcceptsLowerCaseWebSchemes(link: string)
    requires "http:" <= link || "https:" <= link
    ensures LegitLink(link) == (if UrlsplitRaises(link) then Raise else Accept)
  {
    if "http:" <= link {
      PrefixIgnoringCase(link, "http:");
    } else {
      PrefixIgnoringCase(link, "https:");
    }
    AcceptsWebSchemes(link);
  }

  /** A reference led by a C0 control or a space is judged by what follows:
      `urlparse` strips the blank before it reads the scheme, while the
      checks for the empty, fragment-only and protocol-relative forms look
      at the raw text. */
  lemma AcceptsAfterLeadingBlank(link: string)
    requires link != "" && IsC0OrSpace(link[0])
    requires StartsWithIgnoringCase(link[1..], "http:") || StartsWithIgnoringCase(link[1..], "https:")
    ensures LegitLink(link) == (if UrlsplitRaises(link) then Raise else Accept)
  {
    var w := if StartsWithIgnoringCase(link[1..], "http:") then "http:" else "https:";
    assert Clean(link) == Clean(link[1..]);
    CleanKeepsPrefixIgnoringCase(link[1..], w);
    assert !("#" <= link) && !("//" <= link) by {
      assert link[0] <= ' ';
    }
    LegitLinkByPrefix(link);
  }

  /** `urlsplit` reads scheme `http` off `http:` and splits off what follows. */
  lemma SplitHttp(rest: string)
    ensures SplitScheme("http:" + rest) == Split("http", rest)
  {
    var url := "http:" + rest;
    assert url[..4] == "http" && url[4] == ':';
    assert IndexOf(url, ':') == Some(4);
    assert SchemeSyntax(url[..4]);
    assert Lower("http") == "http";
    assert url[5..] == rest;
  }

  /** The same for a reference `http://` followed by a host. */
  lemma SplitHttpReference(host: string)
    ensures SplitScheme("http://" + host) == Split("http", "//" + host)
  {
    assert "http://" + host == "http:" + ("//" + host);
    SplitHttp("//" + host);
  }

  /** After `//`, a host without `/`, `?` or `#` is all netloc. */
  lemma NetlocOfHost(host: string)
    requires NoDelimiter(host)
    ensures Netloc("//" + host) == host
  {
    assert ("//" + host)[2..] == host;
    assert NetlocLength(host) == |host|;
  }

  /** Cleaning leaves an `http` reference with a printable host as it is. */
  lemma CleanHttpHost(host: string)
    requires Printable(host)
    ensures Clean("http://" + host) == "http://" + host
  {
    var link := "http://" + host;
    assert forall i | 7 <= i < |link| :: link[i] == host[i - 7];
    CleanKeepsPrintable(link);
  }

  /** An `http` reference whose host holds a `[` without a `]`, or the
      reverse, makes `legit_link` raise. */
  lemma RaisesOnUnbalancedHost(host: string)
    requires Printable(host) && NoDelimiter(host)
    requires ('[' in host) != (']' in host)
    ensures LegitLink("http://" + host) == Raise
  {
    var link := "http://" + host;
    assert UrlsplitRaises(link) by {
      CleanHttpHost(host);
      SplitHttpReference(host);
      NetlocOfHost(host);
    }
    assert link != "" && !("#" <= link) && !("//" <= link) by {
      assert link[0] == 'h';
    }
  }

  lemma AcceptsProtocolRelative()
    ensures LegitLink("//cdn.example.com/x") == Accept
  {
  }

  /** Two texts without brackets concatenate to one without brackets. */
  lemma NoBracketAppend(a: string, b: string)
    requires '[' !in a && ']' !in a && '[' !in b && ']' !in b
    ensures '[' !in a + b && ']' !in a + b
  {
    assert forall c | c in a + b :: c in a || c in b;
  }

  /** `http://`, `https://` and `HTTP://` start with a web scheme ignoring
      case, and so does anything that follows them.
      The prefix is a parameter pinned by `requires` to the listed
      literals rather than written into the `ensures`: a literal
      concatenation in the conclusion makes the solver unfold the string
      functions far more, and the parameter form states the same facts. */
  lemma WebSchemePrefix(scheme: string, rest: string)
    requires scheme == "http://" || scheme == "https://" || scheme == "HTTP://"
    ensures StartsWithIgnoringCase(scheme + rest, "http:") || StartsWithIgnoringCase(scheme + rest, "https:")
  {
    var w := if scheme == "https://" then "https:" else "http:";
    var p := scheme[..|w|];
    assert Lower(p) == w by {
      assert forall i | 0 <= i < |p| :: LowerChar(p[i]) == w[i];
    }
    PrefixStartsIgnoringCase(scheme + rest, p, w);
  }

  /** Every `http://`, `https://` or `HTTP://` reference without brackets is
      accepted; the capitals pass because the parsed scheme is lower-cased.
      The prefix is pinned as in `WebSchemePrefix`. */
  lemma AcceptsWebReferences(scheme: string, rest: string)
    requires scheme == "http://" || scheme == "https://" || scheme == "HTTP://"
    requires '[' !in rest && ']' !in rest
    ensures LegitLink(scheme + rest) == Accept
  {
    NoBracketAppend(scheme, rest);
    NoBracketNoRaise(scheme + rest);
    WebSchemePrefix(scheme, rest);
    AcceptsWebSchemes(scheme + rest);
  }

  /** A C0 control or a space in front of a reference that is not empty,
      a fragment or protocol-relative changes nothing: the raw checks fail
      with or without it, and `urlparse` strips it. */
  lemma LeadingBlankIgnored(link: string)
    requires link != "" && IsC0OrSpace(link[0])
    requires link[1..] != "" && !("#" <= link[1..]) && !("//" <= link[1..])
    ensures LegitLink(link) == LegitLink(link[1..])
  {
  }

  /** A leading space does not stop a web reference from being accepted. */
  lemma AcceptsAfterLeadingSpace(rest: string)
    requires '[' !in rest && ']' !in rest
    ensures LegitLink(" http://" + rest) == Accept
  {
    var link := " http://" + rest;
    var tail := "http://" + rest;
    assert link[1..] == tail && tail[0] == 'h' by {
      assert link == " " + tail;
    }
    LeadingBlankIgnored(link);
    AcceptsWebReferences("http://", rest);
  }

  /** An IPv6 host without its closing bracket makes `legit_link` raise. */
  lemma RaisesOnUnclosedIpv6Host()
    ensures LegitLink("http://[::1") == Raise
  {
    assert "http://[::1" == "http://" + "[::1";
    RaisesOnUnbalancedHost("[::1");
  }

  /** A reference whose first character is neither a C0 control, a space,
      `/` nor a form of `h` is never accepted: it can be neither
      protocol-relative nor start with `http:` or `https:`. */
  lemma RejectsByFirstChar(link: string)
    requires link != [] && link[0] !in "/hH" && !IsC0OrSpace(link[0])
    ensures LegitLink(link) != Accept
  {
  }

  lemma RejectsEmptyAndFragment()
    ensures LegitLink("") == Reject
    ensures LegitLink("#frag") == Reject
  {
  }

  /** A scheme prefix `p` whose first character rules out `//` and `http`,
      followed by any `rest`, is rejected when neither holds a bracket: it
      cannot raise either. */
  lemma RejectsByFirstCharWithoutBrackets(p: string, rest: string)
    requires p != [] && p[0] !in "/hH" && !IsC0OrSpace(p[0])
    requires '[' !in p && ']' !in p && '[' !in rest && ']' !in rest
    ensures LegitLink(p + rest) == Reject
  {
    assert (p + rest)[0] == p[0];
    NoBracketAppend(p, rest);
    NoBracketNoRaise(p + rest);
    RejectsByFirstChar(p + rest);
  }

  /** Every `ftp://` and every `javascript:` reference without brackets is
      rejected. The prefix is pinned as in `WebSchemePrefix`. */
  lemma RejectsOtherSchemes(scheme: string, rest: string)
    requires scheme == "ftp://" || scheme == "javascript:"
    requires '[' !in rest && ']' !in rest
    ensures LegitLink(scheme + rest) == Reject
  {
    RejectsByFirstCharWithoutBrackets(scheme, rest);
  }

  /** A reference without a `:` has no scheme, so unless it is
      protocol-relative it is rejected, or raises when a bracket is
      unbalanced after a cleaned-up leading `//`. */
  lemma RejectsRelativePath(link: string)
    requires ':' !in link && !("//" <= link)
    ensures LegitLink(link) != Accept
    ensures '[' !in link && ']' !in link ==> LegitLink(link) == Reject
  {
    var url := Clean(link);
    assert ':' !in url by {
      if ':' in url {
        CleanOnlyDeletes(link, ':');
      }
    }
    assert Scheme(link) == "";
    if '[' !in link && ']' !in link {
      NoBracketNoRaise(link);
    }
  }
}
