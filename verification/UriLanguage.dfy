/** What the parser accepts besides URLs with an authority, and what an accepted text looks like. */
module UriLanguage {
  import opened Wrappers
  import opened UriChars
  import opened UriParser
  import opened UriRoundTrip
  import opened UriUserInfo

  // ---- the character classes, by what they leave out ----

  lemma NameCharIs(c: char)
    ensures IsNameChar(c) <==> c !in "\"#&/:;<>?@[\\]^`{|}"
  {
  }

  lemma PathCharIs(c: char)
    ensures IsPathChar(c) <==> c !in "\"#;<>?@[\\]^`{|}"
  {
  }

  lemma QueryCharIs(c: char)
    ensures IsQueryChar(c) <==> c !in "\"#%<>[\\]^`{|}"
  {
  }

  lemma V6CharIs(c: char)
    ensures IsV6Char(c) <==> c in "0123456789abcdefABCDEF:."
  {
  }

  // ---- after the scheme ----

  function SchemeDone(n: nat): Scan {
    START.(state := SlashStart, b := n + 1, parts := NO_PARTS.(scheme := View(0, n)))
  }

  lemma ColonRun(url: string, n: nat)
    requires 1 <= n < |url| && IsAlpha(url[0]) && (forall i :: 0 <= i < n ==> IsSchemeChar(url[i])) && url[n] == ':'
    ensures Inv(url, SchemeDone(n)) && Run(url, SchemeDone(n)) == Parsed(url)
  {
    hide Run, Laid, IsSchemeChar;
    NothingLaid(0);
    StepLeads(url, START);
    var s := START.(state := Scheme, b := 1);
    StepLeads(url, s);
    SchemeCharsPass(url, s, n);
    Skip(url, s, n);
    StepLeads(url, s.(b := n));
    ColonStepIs(url, s.(b := n));
  }

  lemma ColonStepIs(url: string, s: Scan)
    requires s.state == Scheme && SchemeInside(url, s) && s.partStart == 0 && s.b < |url| && url[s.b] == ':'
    ensures Step(url, s) == Go(s.(state := SlashStart, b := s.b + 1, parts := s.parts.(scheme := View(0, s.b))))
  {
  }

  // ---- texts without an authority ----

  /** A scheme, ':' and what follows. */
  function PrintUrn(scheme: string, path: string, rest: string): string {
    scheme + (":" + (path + rest))
  }

  ghost predicate ValidScheme(scheme: string) {
    scheme != "" && IsAlpha(scheme[0]) && All(IsSchemeChar, scheme)
  }

  lemma UrnCharsPass(url: string, s: Scan, k: nat)
    requires s.state == Urn && SchemeInside(url, s) && s.b <= k < |url| && forall i :: s.b <= i < k ==> url[i] != '?'
    ensures forall i :: s.b <= i < k ==> Passes(url, s, i)
  {
  }

  lemma UrnBegins(url: string, n: nat)
    requires n + 1 < |url| && url[n + 1] != '/' && SchemeInside(url, SchemeDone(n))
    ensures Step(url, SchemeDone(n)) == Go(SchemeDone(n).(state := Urn, partStart := n + 1))
  {
  }

  lemma UrnLast(url: string, s: Scan)
    requires s.state == Urn && SchemeInside(url, s) && s.b + 1 == |url|
    ensures Step(url, s) == Done(true, s.parts.(path := View(s.partStart, |url|)))
  {
  }

  lemma UrnToQuery(url: string, s: Scan)
    requires s.state == Urn && SchemeInside(url, s) && s.b + 1 < |url| && url[s.b] == '?'
    ensures Step(url, s) == Go(s.(state := Query, b := s.b + 1, partStart := s.b + 1, parts := s.parts.(path := View(s.partStart, s.b))))
  {
  }

  /** Without a query the path is all that follows the scheme. */
  lemma UrnPathRun(url: string, n: nat)
    requires 1 <= n && n + 1 < |url| && IsAlpha(url[0]) && (forall i :: 0 <= i < n ==> IsSchemeChar(url[i])) && url[n] == ':'
    requires url[n + 1] != '/' && forall i :: n + 1 <= i < |url| - 1 ==> url[i] != '?'
    ensures Parsed(url) == (true, NO_PARTS.(scheme := View(0, n), path := View(n + 1, |url|)))
  {
    hide Run, Inv, Step, IsSchemeChar, Parsed;
    ColonRun(url, n);
    StepLeads(url, SchemeDone(n));
    UrnBegins(url, n);
    var s := SchemeDone(n).(state := Urn, partStart := n + 1);
    StepLeads(url, s);
    UrnCharsPass(url, s, |url| - 1);
    Skip(url, s, |url| - 1);
    StepLeads(url, s.(b := |url| - 1));
    UrnLast(url, s.(b := |url| - 1));
  }

  lemma UrnQueryRun(url: string, n: nat, m: nat, q: string, f: Option<string>)
    requires 1 <= n && n + 1 <= m && m + 1 < |url| && IsAlpha(url[0]) && (forall i :: 0 <= i < n ==> IsSchemeChar(url[i]))
    requires url[n] == ':' && url[n + 1] != '/' && url[m] == '?' && forall i :: n + 1 <= i < m ==> url[i] != '?'
    requires TailAt(url, m, Some(q), f)
    ensures Parsed(url) == (true, TailParts(NO_PARTS.(scheme := View(0, n), path := View(n + 1, m)), m, Some(q), f))
  {
    hide Run, Inv, Step, IsSchemeChar, Parsed, TailAt, TailParts;
    ColonRun(url, n);
    StepLeads(url, SchemeDone(n));
    UrnBegins(url, n);
    var s := SchemeDone(n).(state := Urn, partStart := n + 1);
    StepLeads(url, s);
    UrnCharsPass(url, s, m);
    Skip(url, s, m);
    StepLeads(url, s.(b := m));
    UrnToQuery(url, s.(b := m));
    QueryRun(url, s.(state := Query, b := m + 1, partStart := m + 1, parts := s.parts.(path := View(n + 1, m))), m, q, f);
  }

  /** The scheme and the path are as given, and there is no authority. */
  ghost predicate UrnSpells(url: string, p: Parts, scheme: string, path: string) {
    && Chained(p, |url|)
    && Text(url, p.scheme) == scheme && Text(url, p.path) == path
    && p.host.Unset? && p.username.Unset? && p.password.Unset? && p.port.Unset?
  }

  /** A text without authority is accepted; without a '?' its path is all that follows the scheme. */
  lemma UrnParsePrint(scheme: string, path: string)
    requires ValidScheme(scheme) && '?' !in path && path != "" && path[0] != '/'
    ensures var url := PrintUrn(scheme, path, "");
      && Parsed(url).0 && UrnSpells(url, Parsed(url).1, scheme, path)
      && Parsed(url).1.query.Unset? && Parsed(url).1.fragment.Unset?
  {
    hide Parsed, IsSchemeChar, Chained, At, ValidScheme;
    var url := PrintUrn(scheme, path, "");
    UrnPieces(url, scheme, path, "");
    hide PrintUrn;
    ParsedChained(url);
    UrnPathRun(url, |scheme|);
  }

  /** With a '?' that is not the last character its path ends there, and query and fragment follow. */
  lemma UrnQueryParsePrint(scheme: string, path: string, q: string, f: Option<string>)
    requires ValidScheme(scheme) && '?' !in path && (path != "" ==> path[0] != '/')
    requires All(IsQueryChar, q) && AllMarked(IsQueryChar, f) && (q != "" || f.Some?)
    ensures var url := PrintUrn(scheme, path, Marked('?', Some(q)) + Marked('#', f));
      && Parsed(url).0 && UrnSpells(url, Parsed(url).1, scheme, path)
      && Text(url, Parsed(url).1.query) == q && Text(url, Parsed(url).1.fragment) == OrEmpty(f)
  {
    hide Parsed, IsSchemeChar, IsQueryChar, Chained, TailParts, TailAt, At, All, AllMarked, ValidScheme, OrEmpty;
    var rest, n, m := Marked('?', Some(q)) + Marked('#', f), |scheme|, |scheme| + 1 + |path|;
    var url := PrintUrn(scheme, path, rest);
    UrnPieces(url, scheme, path, rest);
    hide PrintUrn, Marked;
    ParsedChained(url);
    UrnTail(url, m, q, f);
    UrnQueryRun(url, n, m, q, f);
    TailSpells(url, NO_PARTS.(scheme := View(0, n), path := View(n + 1, m)), m, q, f);
  }

  lemma UrnTail(url: string, m: nat, q: string, f: Option<string>)
    requires At(url, m, Marked('?', Some(q)) + Marked('#', f)) && m + |Marked('?', Some(q)) + Marked('#', f)| == |url|
    requires All(IsQueryChar, q) && AllMarked(IsQueryChar, f) && (q != "" || f.Some?)
    ensures TailAt(url, m, Some(q), f) && m + 1 < |url| && url[m] == '?'
  {
    hide At, All, IsQueryChar;
    AtSplit(url, m, Marked('?', Some(q)), Marked('#', f));
    MarkAt(url, m, '?', Some(q), IsQueryChar);
  }

  lemma TailSpells(url: string, p0: Parts, m: nat, q: string, f: Option<string>)
    requires p0.query.Unset? && p0.fragment.Unset? && TailAt(url, m, Some(q), f)
    ensures var p := TailParts(p0, m, Some(q), f);
      && p == p0.(query := p.query, fragment := p.fragment)
      && (p.query.View? ==> p.query.from <= p.query.to <= |url|) && Text(url, p.query) == q
      && (p.fragment.View? ==> p.fragment.from <= p.fragment.to <= |url|) && Text(url, p.fragment) == OrEmpty(f)
  {
    hide At, All, IsQueryChar, TailParts, IsMarkedView, Text;
    var p := TailParts(p0, m, Some(q), f);
    TailFields(p0, m, q, f);
    MarkedSpells(url, m, '?', Some(q));
    MarkedText(url, p.query, m, Some(q));
    MarkedSpells(url, m + 1 + |q|, '#', f);
    MarkedText(url, p.fragment, m + 1 + |q|, f);
  }

  lemma UrnPieces(url: string, scheme: string, path: string, rest: string)
    requires url == scheme + (":" + (path + rest)) && ValidScheme(scheme)
    requires '?' !in path && (path != "" ==> path[0] != '/') && (path == "" ==> rest != "" && rest[0] == '?')
    ensures var n, m := |scheme|, |scheme| + 1 + |path|;
      && 1 <= n && n + 1 < |url| && m + |rest| == |url|
      && IsAlpha(url[0]) && (forall i :: 0 <= i < n ==> IsSchemeChar(url[i])) && url[n] == ':' && url[n + 1] != '/'
      && (forall i :: n + 1 <= i < m ==> url[i] != '?')
      && url[0..n] == scheme && url[n + 1..m] == path && At(url, m, rest)
  {
    hide IsSchemeChar, IsAlpha;
    assert forall i :: 0 <= i < |scheme| ==> url[i] == scheme[i];
    assert forall i :: 0 <= i < |path| ==> url[|scheme| + 1 + i] == path[i];
    assert forall i :: 0 <= i < |rest| ==> url[|scheme| + 1 + |path| + i] == rest[i];
    assert forall i :: |scheme| + 1 <= i < |scheme| + 1 + |path| ==> url[i] == path[i - |scheme| - 1];
  }

  lemma TailFields(p0: Parts, m: nat, q: string, f: Option<string>)
    requires p0.query.Unset? && p0.fragment.Unset?
    ensures var p := TailParts(p0, m, Some(q), f);
      && p == p0.(query := p.query, fragment := p.fragment)
      && IsMarkedView(p.query, m, Some(q)) && IsMarkedView(p.fragment, m + 1 + |q|, f)
  {
  }

  // ---- the scheme "file" ----

  /** The slashes "///" after the scheme "file", in letters of any case, are read as "//". */
  lemma FileSlashes(url: string, n: nat)
    requires 1 <= n && n + 4 < |url| && IsAlpha(url[0]) && (forall i :: 0 <= i < n ==> IsSchemeChar(url[i]))
    requires EqualsIgnoringCase(url[..n], "file")
    requires url[n] == ':' && url[n + 1] == '/' && url[n + 2] == '/' && url[n + 3] == '/'
    ensures var s := AuthorityStart(n).(b := n + 4, partStart := n + 4);
      Inv(url, s) && Run(url, s) == Parsed(url)
  {
    hide Run, Inv, IsSchemeChar, Parsed, EqualsIgnoringCase;
    ColonRun(url, n);
    StepLeads(url, SchemeDone(n));
    assert url[0..n] == url[..n];
    var t := SchemeDone(n).(state := Slash, b := n + 3);
    assert Step(url, SchemeDone(n)) == Go(t);
    StepLeads(url, t);
  }

  /** So a URL printed with "file:///" has the components that it would have with "file://": what
      looks like the first part of an absolute path is the host. */
  lemma FileParsePrint(u: Url)
    requires Valid(u) && EqualsIgnoringCase(u.scheme, "file")
    ensures var url := u.scheme + (":///" + (PrintHost(u.host) + (Marked(':', u.port) + Rest(u))));
      Parsed(url).0 && Spells(url, Parsed(url).1, u)
  {
    hide Valid, Run, Parsed, Inv, RestAt, At, RestParts, AuthorityParts, Rest, PrintHost, Marked, Spells, EqualsIgnoringCase;
    var h, m := PrintHost(u.host), Marked(':', u.port);
    var url, n := u.scheme + (":///" + (h + (m + Rest(u)))), |u.scheme|;
    FivePieces(url, u.scheme, ":///", h, m, Rest(u));
    RestPieces(url, n + 4 + |h| + |m|, u);
    FileFront(url, u);
    FileSlashes(url, n);
    var s := AuthorityStart(n).(b := n + 4, partStart := n + 4);
    FileAuthority(url, s, n, u);
    if u.host.Name? {
      NameRun(url, s, u);
    } else {
      V6Run(url, s, u);
    }
    ParsedChained(url);
    SpelledAt(url, n + 4, u, NO_PARTS.(scheme := View(0, n)), Parsed(url).1);
  }

  lemma FileFront(url: string, u: Url)
    requires Valid(u) && At(url, 0, u.scheme) && At(url, |u.scheme|, ":///") && At(url, |u.scheme| + 4, PrintHost(u.host))
    ensures var n := |u.scheme|;
      && 1 <= n && n + 4 < |url| && IsAlpha(url[0]) && (forall i :: 0 <= i < n ==> IsSchemeChar(url[i]))
      && url[..n] == u.scheme && url[n] == ':' && url[n + 1] == '/' && url[n + 2] == '/' && url[n + 3] == '/'
  {
    hide IsSchemeChar;
    var n := |u.scheme|;
    AllAt(url, 0, u.scheme, IsSchemeChar);
    TextAt(url, 0, u.scheme);
    assert url[0 + 0] == u.scheme[0];
    assert url[n + 0] == ":///"[0] && url[n + 1] == ":///"[1] && url[n + 2] == ":///"[2] && url[n + 3] == ":///"[3];
  }

  lemma FileAuthority(url: string, s: Scan, n: nat, u: Url)
    requires s == AuthorityStart(n).(b := n + 4, partStart := n + 4) && Inv(url, s) && At(url, n + 4, PrintHost(u.host))
    requires At(url, n + 4 + |PrintHost(u.host)|, Marked(':', u.port))
    requires RestAt(url, n + 4 + |PrintHost(u.host)| + |Marked(':', u.port)|, u)
    ensures AtAuthority(url, s, u) && s.parts == NO_PARTS.(scheme := View(0, n)) && s.b == n + 4
  {
    hide Inv, At, RestAt, PrintHost, Marked;
  }

  lemma SpelledAt(url: string, pos: nat, u: Url, p0: Parts, p: Parts)
    requires p0 == NO_PARTS.(scheme := View(0, |u.scheme|)) && Chained(p, |url|) && At(url, 0, u.scheme)
    requires At(url, pos, PrintHost(u.host)) && At(url, pos + |PrintHost(u.host)|, Marked(':', u.port))
    requires var r := pos + |PrintHost(u.host)| + |Marked(':', u.port)|;
      RestAt(url, r, u) && p == RestParts(AuthorityParts(p0, pos, u), r, u)
    ensures Spells(url, p, u)
  {
    hide RestParts, AuthorityParts, RestAt, At, Text, Chained, PrintHost, Marked, IsMarkedView, OrEmpty;
    var h := |PrintHost(u.host)|;
    var r := pos + h + |Marked(':', u.port)|;
    FieldsWith(p0, pos, r, u);
    TextAt(url, 0, u.scheme);
    AtInside(url, 0, u.scheme);
    TextOf(url, p.scheme, 0, u.scheme);
    HostWith(url, pos, u.host, p.host);
    MarkedSpells(url, pos + h, ':', u.port);
    MarkedText(url, p.port, pos + h, u.port);
    RestSpells(url, r, u, p);
  }

  // ---- what an accepted text looks like ----

  /** All characters of the view, but for the last of the text, are in the class. */
  ghost predicate AllBut(url: string, v: View, p: char -> bool)
    requires v.View? ==> v.to <= |url|
  {
    v.View? ==> forall i :: v.from <= i < v.to && i < |url| - 1 ==> p(url[i])
  }

  ghost predicate After(url: string, v: View, mark: char) {
    v.View? ==> 1 <= v.from <= |url| && url[v.from - 1] == mark
  }

  ghost predicate SchemeIs(url: string, n: nat) {
    && 1 <= n < |url| && IsAlpha(url[0]) && (forall i :: 0 <= i < n ==> IsSchemeChar(url[i])) && url[n] == ':'
  }

  ghost predicate Slashes(url: string, n: nat) {
    n + 2 < |url| && url[n + 1] == '/' && url[n + 2] == '/'
  }

  ghost predicate SchemeExplained(url: string, scheme: View) {
    scheme.View? && scheme.from == 0 && SchemeIs(url, scheme.to)
  }

  ghost predicate LoginExplained(url: string, user: View, password: View) {
    && (user.View? ==> var e := End(password, user.to); e < |url| && url[e] == '@')
    && After(url, password, ':')
  }

  ghost predicate PathExplained(url: string, scheme: View, host: View, path: View)
    requires scheme.View? && (path.View? ==> path.to <= |url|)
  {
    path.View? ==>
      if host.View? then path.from < |url| && url[path.from] == '/' && AllBut(url, path, IsPathChar)
      else path.from == scheme.to + 1
  }

  ghost predicate QueryExplained(url: string, v: View, mark: char)
    requires v.View? ==> v.to <= |url|
  {
    After(url, v, mark) && AllBut(url, v, IsQueryChar)
  }

  /** Without a login a host is what stands between brackets, not empty and of the characters of an
      IPv6 address, or has no '[' in it. */
  ghost predicate HostExplained(url: string, user: View, host: View) {
    user.Unset? && host.View? ==>
      || (1 <= host.from < host.to < |url| && url[host.from - 1] == '[' && url[host.to] == ']'
          && forall i :: host.from <= i < host.to ==> IsV6Char(url[i]) || url[i] == '[' || url[i] == ']')
      || (host.to <= |url| && forall i :: host.from <= i < host.to ==> url[i] != '[')
  }

  /** What is known of the brackets met so far. */
  ghost predicate BracketsKnown(url: string, s: Scan) {
    BracketsSeen(url, s) && V6Seen(url, s, s.b)
  }

  ghost predicate BracketsSeen(url: string, s: Scan) {
    && s.b <= |url|
    && (s.v6Start.Null? ==> forall i :: s.partStart <= i < s.b ==> url[i] != '[')
    && (s.v6Start.To? ==> 1 <= s.v6Start.pos <= s.b && url[s.v6Start.pos - 1] == '[')
    && (s.v6End.To? ==> s.v6End.pos < s.b && url[s.v6End.pos] == ']')
  }

  /** While it may be an IPv6 address, all characters after the '[' and before `limit` belong to one. */
  ghost predicate V6Seen(url: string, s: Scan, limit: nat)
    requires limit <= |url|
  {
    s.isV6 && s.v6Start.To? ==>
      forall i :: s.v6Start.pos <= i < limit ==> IsV6Char(url[i]) || url[i] == '[' || url[i] == ']'
  }

  ghost predicate InsideText(url: string, p: Parts) {
    && (p.path.View? ==> p.path.to <= |url|) && (p.query.View? ==> p.query.to <= |url|)
    && (p.fragment.View? ==> p.fragment.to <= |url|)
  }

  /** Each component has its mark before it and characters of its class in it; with an authority the
      scheme is followed by "://" and a path begins with '/', and a login is followed by '@'. */
  ghost predicate Explained(url: string, p: Parts) {
    && Laid(p, 8, |url|) && InsideText(url, p)
    && SchemeExplained(url, p.scheme)
    && (p.host.View? || p.username.View? ==> Slashes(url, p.scheme.to))
    && LoginExplained(url, p.username, p.password) && HostExplained(url, p.username, p.host)
    && After(url, p.port, ':')
    && PathExplained(url, p.scheme, p.host, p.path)
    && QueryExplained(url, p.query, '?') && QueryExplained(url, p.fragment, '#')
  }

  /** What is known of the text that has been read, in a state after the scheme. */
  ghost predicate Here(url: string, s: Scan)
    requires s.parts.scheme.View? && s.b <= |url|
  {
    var n := s.parts.scheme.to;
    match s.state
    case SlashStart => s.b == n + 1
    case Slash =>
      n + 1 < |url| && url[n + 1] == '/' && (s.b == n + 2 || (s.b == n + 3 && n + 2 < |url| && url[n + 2] == '/'))
    case Urn => s.partStart == n + 1 && s.parts.host.Unset?
    case Probe => Slashes(url, n) && (s.probe.View? ==> s.probe.to < |url| && url[s.probe.to] == ':') && BracketsKnown(url, s)
    case HostStart => s.parts.username.View?
    case Host => s.parts.username.View?
    case PortStart => s.parts.host.View? && 1 <= s.partStart <= |url| && url[s.partStart - 1] == ':'
    case Port => s.parts.host.View? && 1 <= s.partStart <= |url| && url[s.partStart - 1] == ':'
    case Path =>
      && s.parts.host.View? && s.partStart < |url| && url[s.partStart] == '/'
      && forall i :: s.partStart <= i < s.b ==> IsPathChar(url[i])
    case Query =>
      && 1 <= s.partStart <= |url| && url[s.partStart - 1] == '?'
      && forall i :: s.partStart <= i < s.b ==> IsQueryChar(url[i])
    case Fragment =>
      && 1 <= s.partStart <= |url| && url[s.partStart - 1] == '#'
      && forall i :: s.partStart <= i < s.b ==> IsQueryChar(url[i])
    case _ => false
  }

  ghost predicate Known(url: string, s: Scan) {
    && Inv(url, s) && s.b <= |url|
    && if s.state == SchemeStart then true
       else if s.state == Scheme then
         s.partStart == 0 && 1 <= s.b && IsAlpha(url[0]) && forall i :: 0 <= i < s.b ==> IsSchemeChar(url[i])
       else Explained(url, s.parts) && Here(url, s)
  }

  /** What a turn leads to is known, or explained if the text is accepted. */
  ghost predicate Sensible(url: string, o: Outcome) {
    match o
    case Go(t) => Known(url, t)
    case Done(ok, parts) => ok ==> Explained(url, parts)
  }

  lemma UnsetFrom(p: Parts, k: nat, limit: nat)
    requires Laid(p, k, limit)
    ensures (k <= 7 ==> p.fragment.Unset?) && (k <= 6 ==> p.query.Unset?) && (k <= 5 ==> p.path.Unset?)
    ensures (k <= 4 ==> p.port.Unset?) && (k <= 3 ==> p.host.Unset?) && (k <= 2 ==> p.password.Unset?)
    ensures (k <= 1 ==> p.username.Unset?) && (k <= 0 ==> p.scheme.Unset?)
  {
  }

  /** What the turns of StepIsSound say about order is taken from there. */
  lemma Ordered(url: string, s: Scan)
    requires Inv(url, s) && s.b < |url|
    ensures SchemeInside(url, s)
    ensures match Step(url, s)
      case Go(t) => Inv(url, t) && t.b <= |url| && Laid(t.parts, 8, |url|)
      case Done(ok, parts) => Laid(parts, 8, |url|)
  {
    hide Step, Laid;
    StepIsSound(url, s);
    if Step(url, s).Go? {
      InvHasParts(url, Step(url, s).next);
    }
  }

  lemma SchemeTurn(url: string, s: Scan)
    requires Known(url, s) && s.b < |url| && (s.state == SchemeStart || s.state == Scheme)
    ensures SchemeInside(url, s) && Sensible(url, Step(url, s))
  {
    hide Laid, IsAlpha;
    Ordered(url, s);
    NothingSet(url, s);
  }

  lemma NothingSet(url: string, s: Scan)
    requires Inv(url, s) && (s.state == SchemeStart || s.state == Scheme)
    ensures s.parts == NO_PARTS && s.partStart <= s.b
    ensures s.state == SchemeStart ==> s.b == 0 && s.partStart == 0
  {
  }

  lemma SlashTurn(url: string, s: Scan)
    requires Known(url, s) && s.b < |url| && (s.state == SlashStart || s.state == Slash)
    ensures SchemeInside(url, s) && Sensible(url, Step(url, s))
  {
    hide Laid, IsSchemeChar, IsAlpha, IsPathChar, IsQueryChar, EqualsIgnoringCase;
    Ordered(url, s);
    UnsetFrom(s.parts, 1, s.b);
    ProbeUnset(s);
    hide Inv;
  }

  lemma ProbeUnset(s: Scan)
    ensures NoProbe(s) ==> s.probe.Unset?
  {
  }

  lemma UrnTurn(url: string, s: Scan)
    requires Known(url, s) && s.b < |url| && s.state == Urn
    ensures SchemeInside(url, s) && Sensible(url, Step(url, s))
  {
    hide Laid, IsSchemeChar, IsAlpha, IsPathChar, IsQueryChar;
    Ordered(url, s);
    UnsetFrom(s.parts, 1, s.partStart);
    hide Inv;
  }

  lemma ProbeGoesOn(url: string, s: Scan)
    requires Known(url, s) && s.b < |url| && s.state == Probe && url[s.b] !in "@/?#" && SchemeInside(url, s) && Step(url, s).Go?
    ensures Known(url, Step(url, s).next)
  {
    hide Laid, IsSchemeChar, IsAlpha, IsPathChar, IsQueryChar, Explained, SetHost, IsNameChar, IsV6Char;
    Ordered(url, s);
    BracketsStay(url, s);
    GoesOn(url, s);
    hide Brackets, ProbeOk, Step;
  }

  /** A character that goes on leaves its own part of the authority open. */
  lemma GoesOn(url: string, s: Scan)
    requires s.state == Probe && SchemeInside(url, s) && s.b < |url| && url[s.b] !in "@/?#" && Step(url, s).Go?
    ensures var t := Brackets(s, url[s.b], s.b + 1);
      var n := Step(url, s).next;
      && n.state == Probe && n.parts == s.parts && n.partStart == s.partStart && n.b == s.b + 1
      && n.v6Start == t.v6Start && n.v6End == t.v6End && (n.isV6 ==> t.isV6)
      && (n.isV6 ==> IsV6Char(url[s.b]) || url[s.b] == ']' || url[s.b] == '[')
      && (n.probe == t.probe || (n.probe == View(s.partStart, s.b) && url[s.b] == ':'))
      && (t.probe == s.probe || t.probe.Unset?)
  {
    hide IsNameChar, SetHost;
  }

  lemma ProbeLogsIn(url: string, s: Scan)
    requires Known(url, s) && s.b < |url| && s.state == Probe && url[s.b] == '@'
    ensures Sensible(url, Step(url, s))
  {
    hide Laid, IsSchemeChar, IsAlpha, IsPathChar, IsQueryChar;
    Ordered(url, s);
    UnsetFrom(s.parts, 1, s.partStart);
    hide Inv;
  }

  /** What has been seen up to `end`, where the bracket closed at `limit` or before. */
  ghost predicate BracketsFit(url: string, s: Scan, end: nat, limit: nat) {
    && s.partStart <= end <= |url| && limit <= |url| && ProbeOk(s.(b := end))
    && BracketsSeen(url, s.(b := end)) && V6Seen(url, s, limit) && (s.v6End.To? ==> s.v6End.pos <= limit)
  }

  /** One more character, `t` being the scan after it. */
  lemma BracketsStay(url: string, s: Scan)
    requires BracketsKnown(url, s) && ProbeOk(s) && s.partStart <= s.b < |url|
    ensures var t := Brackets(s, url[s.b], s.b + 1);
      && BracketsSeen(url, t.(b := s.b + 1)) && V6Seen(url, t, s.b)
      && ((t.isV6 ==> IsV6Char(url[s.b]) || url[s.b] == ']' || url[s.b] == '[') ==> V6Seen(url, t, s.b + 1))
      && BracketsFit(url, t, s.b + 1, s.b)
  {
    hide IsV6Char;
    BracketsKeepProbe(s, url[s.b], s.b + 1);
  }

  lemma HostIsExplained(url: string, s: Scan, end: nat, limit: nat)
    requires Explained(url, s.parts) && Slashes(url, s.parts.scheme.to) && Laid(s.parts, 1, s.partStart)
    requires s.probe.View? ==> s.probe.to < |url| && url[s.probe.to] == ':'
    requires BracketsFit(url, s, end, limit)
    requires SetHost(s, end).Authority? && Laid(SetHost(s, end).parts, 8, |url|)
    ensures Explained(url, SetHost(s, end).parts) && SetHost(s, end).parts.host.View?
  {
    hide Laid, IsSchemeChar, IsAlpha, IsPathChar, IsQueryChar;
    UnsetFrom(s.parts, 1, s.partStart);
  }

  lemma ProbeEnds(url: string, s: Scan)
    requires Known(url, s) && s.b < |url| && s.state == Probe && url[s.b] in "/?#"
    ensures Sensible(url, Step(url, s))
  {
    hide Laid, IsSchemeChar, IsAlpha, IsPathChar, IsQueryChar, SetHost, Explained;
    Ordered(url, s);
    if SetHost(s, s.b).Authority? {
      AuthorityLaid(url, s, s.b);
      NowFits(url, s);
      HostIsExplained(url, s, s.b, s.b);
    }
  }

  lemma NowFits(url: string, s: Scan)
    requires BracketsKnown(url, s) && ProbeOk(s) && s.partStart <= s.b
    ensures BracketsFit(url, s, s.b, s.b)
  {
    assert s.(b := s.b) == s;
  }

  lemma AuthorityLaid(url: string, s: Scan, end: nat)
    requires Inv(url, s) && s.state == Probe && s.b <= end <= |url| && SetHost(s, end).Authority?
    ensures Laid(SetHost(s, end).parts, 8, |url|)
  {
    hide Laid, ProbeOk, SetHost;
    var t := s.(b := end);
    ProbeLater(s, end);
    LaidLater(s.parts, 1, s.partStart);
    HostIsLaid(t, end);
    SetHostIgnoresCursor(s, end, end);
    LaidLater(SetHost(s, end).parts, 5, end);
  }

  lemma ProbeLater(s: Scan, end: nat)
    requires ProbeOk(s) && s.b <= end
    ensures ProbeOk(s.(b := end))
  {
  }

  lemma ProbeFinishes(url: string, s: Scan)
    requires Known(url, s) && s.b + 1 == |url| && s.state == Probe && url[s.b] !in "@/?#" && Step(url, s).Done?
    ensures Sensible(url, Step(url, s))
  {
    hide Laid, IsSchemeChar, IsAlpha, IsPathChar, IsQueryChar, Explained;
    Ordered(url, s);
    var t := Brackets(s, url[s.b], s.b + 1);
    BracketsStay(url, s);
    BracketsChange(s, url[s.b], s.b + 1);
    if Step(url, s).ok {
      FinishIs(url, s);
      HostIsExplained(url, t, s.b + 1, s.b);
    }
  }

  lemma BracketsChange(s: Scan, c: char, b: nat)
    requires 1 <= b
    ensures var t := Brackets(s, c, b);
      t.parts == s.parts && t.partStart == s.partStart && (t.probe == s.probe || t.probe.Unset?)
  {
  }

  lemma FinishIs(url: string, s: Scan)
    requires s.state == Probe && SchemeInside(url, s) && s.b + 1 == |url| && url[s.b] !in "@/?#"
    requires Step(url, s).Done? && Step(url, s).ok
    ensures var h := SetHost(Brackets(s, url[s.b], s.b + 1), s.b + 1); h.Authority? && Step(url, s).parts == h.parts
  {
  }

  lemma ProbeTurn(url: string, s: Scan)
    requires Known(url, s) && s.b < |url| && s.state == Probe
    ensures SchemeInside(url, s) && Sensible(url, Step(url, s))
  {
    hide Explained, Here, Step;
    Ordered(url, s);
    hide Known;
    var c := url[s.b];
    if c == '@' {
      ProbeLogsIn(url, s);
    } else if c in "/?#" {
      ProbeEnds(url, s);
    } else if Step(url, s).Go? {
      ProbeGoesOn(url, s);
    } else if s.b + 1 == |url| {
      ProbeFinishes(url, s);
    } else {
      ProbeRejects(url, s);
    }
  }

  lemma ProbeRejects(url: string, s: Scan)
    requires s.state == Probe && SchemeInside(url, s) && s.b + 1 < |url| && url[s.b] !in "@/?#" && Step(url, s).Done?
    ensures !Step(url, s).ok
  {
  }

  lemma HostStartTurn(url: string, s: Scan)
    requires Known(url, s) && s.b < |url| && s.state == HostStart
    ensures SchemeInside(url, s) && Sensible(url, Step(url, s))
  {
    hide Laid, IsNameChar, Explained;
    Ordered(url, s);
    hide Inv;
  }

  lemma BracketTurn(url: string, s: Scan)
    requires Known(url, s) && s.b < |url| && s.state == Host && s.isV6 && url[s.b] == ']'
    ensures SchemeInside(url, s) && Sensible(url, Step(url, s))
  {
    hide Laid, IsSchemeChar, IsAlpha, IsPathChar, IsQueryChar, IsNameChar, LoginExplained, QueryExplained, Slashes;
    Ordered(url, s);
    UnsetFrom(s.parts, 3, s.partStart);
    hide Inv;
  }

  lemma NameTurn(url: string, s: Scan)
    requires Known(url, s) && s.b < |url| && s.state == Host && !(s.isV6 && url[s.b] == ']')
    ensures SchemeInside(url, s) && Sensible(url, Step(url, s))
  {
    hide Laid, IsSchemeChar, IsAlpha, IsPathChar, IsQueryChar, IsNameChar, LoginExplained, QueryExplained, Slashes;
    Ordered(url, s);
    UnsetFrom(s.parts, 3, s.partStart);
    hide Inv;
  }

  lemma PortTurn(url: string, s: Scan)
    requires Known(url, s) && s.b < |url| && (s.state == PortStart || s.state == Port)
    ensures SchemeInside(url, s) && Sensible(url, Step(url, s))
  {
    hide Laid, IsSchemeChar, IsAlpha, IsPathChar, IsQueryChar, IsDigit, LoginExplained, QueryExplained, PathExplained, Slashes, SchemeExplained;
    Ordered(url, s);
    UnsetFrom(s.parts, 4, s.partStart);
    hide Inv;
  }

  lemma PathTurn(url: string, s: Scan)
    requires Known(url, s) && s.b < |url| && s.state == Path
    ensures SchemeInside(url, s) && Sensible(url, Step(url, s))
  {
    hide Laid, IsSchemeChar, IsAlpha, IsPathChar, IsQueryChar, LoginExplained, Slashes, SchemeExplained, QueryExplained;
    Ordered(url, s);
    UnsetFrom(s.parts, 5, s.partStart);
    hide Inv;
  }

  lemma QueryTurn(url: string, s: Scan)
    requires Known(url, s) && s.b < |url| && s.state == Query
    ensures SchemeInside(url, s) && Sensible(url, Step(url, s))
  {
    hide Laid, IsSchemeChar, IsAlpha, IsPathChar, IsQueryChar, LoginExplained, Slashes, SchemeExplained, PathExplained;
    Ordered(url, s);
    UnsetFrom(s.parts, 6, s.partStart);
    hide Inv;
  }

  lemma FragmentTurn(url: string, s: Scan)
    requires Known(url, s) && s.b < |url| && s.state == Fragment
    ensures SchemeInside(url, s) && Sensible(url, Step(url, s))
  {
    hide Laid, IsSchemeChar, IsAlpha, IsPathChar, IsQueryChar, LoginExplained, Slashes, SchemeExplained, PathExplained;
    Ordered(url, s);
    UnsetFrom(s.parts, 7, s.partStart);
    hide Inv;
  }

  lemma TurnIsSensible(url: string, s: Scan)
    requires Known(url, s) && s.b < |url|
    ensures SchemeInside(url, s) && Sensible(url, Step(url, s))
  {
    hide Known, Sensible, Step;
    match s.state
    case SchemeStart => SchemeTurn(url, s);
    case Scheme => SchemeTurn(url, s);
    case SlashStart => SlashTurn(url, s);
    case Slash => SlashTurn(url, s);
    case Urn => UrnTurn(url, s);
    case Probe => ProbeTurn(url, s);
    case HostStart => HostStartTurn(url, s);
    case Host => if s.isV6 && url[s.b] == ']' { BracketTurn(url, s); } else { NameTurn(url, s); }
    case PortStart => PortTurn(url, s);
    case Port => PortTurn(url, s);
    case Path => PathTurn(url, s);
    case Query => QueryTurn(url, s);
    case Fragment => FragmentTurn(url, s);
  }

  lemma {:induction false} RunIsSensible(url: string, s: Scan)
    requires Known(url, s)
    ensures Run(url, s).0 ==> Explained(url, Run(url, s).1)
    decreases 12 - Rank(s.state), |url| - s.b
  {
    hide Explained, Step, Here;
    if s.b < |url| {
      TurnIsSensible(url, s);
      hide Known;
      StepIsSound(url, s);
      if Step(url, s).Go? {
        RunIsSensible(url, Step(url, s).next);
      }
    }
  }

  /** Whatever is accepted is explained: its scheme is a scheme, what looks like an authority follows
      "://", each component follows its mark, and path, query and fragment are of the characters of
      their class, but for the last character of the text, which is not looked at. */
  lemma AcceptedIsExplained(url: string)
    requires Parsed(url).0
    ensures Explained(url, Parsed(url).1)
  {
    NothingLaid(0);
    RunIsSensible(url, START);
  }
}
