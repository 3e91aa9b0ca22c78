/** Printing a URL without user information and parsing it gives its components back. */
module UriRoundTrip {
  import opened Wrappers
  import opened UriChars
  import opened UriParser

  datatype HostText = Name(text: string) | V6(text: string)

  datatype Url = Url(scheme: string, host: HostText, port: Option<string>, path: string,
                     query: Option<string>, fragment: Option<string>)

  /** A component with the mark before it, or nothing. */
  function Marked(mark: char, o: Option<string>): string {
    match o case None => "" case Some(v) => [mark] + v
  }

  function PrintHost(h: HostText): string {
    match h case Name(t) => t case V6(t) => "[" + t + "]"
  }

  function Rest(u: Url): string {
    u.path + (Marked('?', u.query) + Marked('#', u.fragment))
  }

  function Print(u: Url): string {
    u.scheme + ("://" + (PrintHost(u.host) + (Marked(':', u.port) + Rest(u))))
  }

  ghost predicate All(p: char -> bool, s: string) {
    forall i :: 0 <= i < |s| ==> p(s[i])
  }

  ghost predicate AllMarked(p: char -> bool, o: Option<string>) {
    o.Some? ==> All(p, o.value)
  }

  /** Components drawn from the parser's own character classes. */
  ghost predicate Valid(u: Url) {
    && u.scheme != "" && IsAlpha(u.scheme[0]) && All(IsSchemeChar, u.scheme)
    && u.host.text != "" && All(if u.host.Name? then IsNameChar else IsV6Char, u.host.text)
    && (u.port.Some? ==> u.port.value != "" && All(IsDigit, u.port.value))
    && (u.path != "" ==> u.path[0] == '/') && All(IsPathChar, u.path)
    && AllMarked(IsQueryChar, u.query) && AllMarked(IsQueryChar, u.fragment)
  }

  // ---- pieces of the text at their positions ----

  ghost predicate At(url: string, pos: nat, piece: string) {
    pos + |piece| <= |url| && forall i :: 0 <= i < |piece| ==> url[pos + i] == piece[i]
  }

  lemma AtSplit(url: string, pos: nat, a: string, b: string)
    requires At(url, pos, a + b)
    ensures At(url, pos, a) && At(url, pos + |a|, b)
  {
    forall i | 0 <= i < |a|
      ensures url[pos + i] == a[i]
    {
      assert (a + b)[i] == a[i];
    }
    forall i | 0 <= i < |b|
      ensures url[pos + |a| + i] == b[i]
    {
      assert (a + b)[|a| + i] == b[i];
      assert url[pos + (|a| + i)] == b[i];
    }
  }

  lemma TextAt(url: string, pos: nat, piece: string)
    requires At(url, pos, piece)
    ensures url[pos..pos + |piece|] == piece
  {
  }

  lemma AllAt(url: string, pos: nat, piece: string, p: char -> bool)
    requires At(url, pos, piece) && All(p, piece)
    ensures forall i :: pos <= i < pos + |piece| ==> p(url[i])
  {
    forall i | pos <= i < pos + |piece|
      ensures p(url[i])
    {
      assert url[pos + (i - pos)] == piece[i - pos];
    }
  }

  // ---- steps of the scan ----

  ghost predicate SchemeInside(url: string, s: Scan) {
    s.parts.scheme.View? ==> s.parts.scheme.from <= s.parts.scheme.to <= |url|
  }

  /** The outcome of a step leads to result `r`. */
  ghost predicate LeadsTo(url: string, o: Outcome, r: (bool, Parts)) {
    match o
    case Done(ok, parts) => r == (ok, parts)
    case Go(t) => Inv(url, t) && Run(url, t) == r
  }

  lemma StepLeads(url: string, s: Scan)
    requires Inv(url, s) && s.b < |url|
    ensures SchemeInside(url, s) && LeadsTo(url, Step(url, s), Run(url, s))
  {
    hide Step;
    StepIsSound(url, s);
  }

  /** The character at `i` only moves the cursor. */
  ghost predicate Passes(url: string, s: Scan, i: nat)
    requires i < |url| && SchemeInside(url, s)
  {
    Step(url, s.(b := i)) == Go(s.(b := i + 1))
  }

  lemma {:induction false} Skip(url: string, s: Scan, k: nat)
    requires Inv(url, s) && s.b <= k <= |url| && SchemeInside(url, s)
    requires forall i :: s.b <= i < k ==> Passes(url, s, i)
    ensures Inv(url, s.(b := k)) && Run(url, s.(b := k)) == Run(url, s)
    decreases k - s.b
  {
    hide Step, Run, Inv;
    if s.b < k {
      var t := s.(b := s.b + 1);
      StepLeads(url, s);
      assert Passes(url, s, s.b) && s == s.(b := s.b);
      forall i | t.b <= i < k
        ensures Passes(url, t, i)
      {
        assert Passes(url, s, i);
        assert t.(b := i) == s.(b := i) && t.(b := i + 1) == s.(b := i + 1);
      }
      Skip(url, t, k);
      assert t.(b := k) == s.(b := k);
    } else {
      assert s.(b := k) == s;
    }
  }

  // ---- fragment, query, path ----

  lemma FragmentRun(url: string, s: Scan)
    requires Inv(url, s) && s.state == Fragment && s.b < |url|
    requires forall i :: s.b <= i < |url| ==> IsQueryChar(url[i])
    ensures Run(url, s) == (true, s.parts.(fragment := View(s.partStart, |url|)))
  {
    hide Run, Inv;
    StepLeads(url, s);
    FragmentCharsPass(url, s);
    Skip(url, s, |url| - 1);
    StepLeads(url, s.(b := |url| - 1));
  }

  lemma FragmentCharsPass(url: string, s: Scan)
    requires s.state == Fragment && SchemeInside(url, s) && forall i :: s.b <= i < |url| ==> IsQueryChar(url[i])
    ensures forall i :: s.b <= i < |url| - 1 ==> Passes(url, s, i)
  {
  }

  /** Where the query and the fragment end up, given that the text goes on with them at `pos`. */
  function TailParts(p: Parts, pos: nat, q: Option<string>, f: Option<string>): Parts {
    var end := pos + |Marked('?', q)|;
    var p1 := if q.Some? && (q.value != "" || f.Some?) then p.(query := View(pos + 1, end)) else p;
    if f.Some? && f.value != "" then p1.(fragment := View(end + 1, end + 1 + |f.value|)) else p1
  }

  ghost predicate TailAt(url: string, pos: nat, q: Option<string>, f: Option<string>) {
    && At(url, pos, Marked('?', q)) && At(url, pos + |Marked('?', q)|, Marked('#', f))
    && pos + |Marked('?', q)| + |Marked('#', f)| == |url|
    && AllMarked(IsQueryChar, q) && AllMarked(IsQueryChar, f)
  }

  lemma MarkAt(url: string, pos: nat, mark: char, o: Option<string>, p: char -> bool)
    requires At(url, pos, Marked(mark, o)) && AllMarked(p, o) && o.Some?
    ensures url[pos] == mark && forall i :: pos + 1 <= i < pos + 1 + |o.value| ==> p(url[i])
  {
    AtSplit(url, pos, [mark], o.value);
    assert url[pos + 0] == [mark][0];
    AllAt(url, pos + 1, o.value, p);
  }

  lemma QueryRun(url: string, s: Scan, pos: nat, q: string, f: Option<string>)
    requires Inv(url, s) && s.state == Query && s.b == s.partStart == pos + 1 < |url|
    requires TailAt(url, pos, Some(q), f)
    ensures Run(url, s) == (true, TailParts(s.parts, pos, Some(q), f))
  {
    hide Run, Inv, TailParts, At, IsQueryChar;
    MarkAt(url, pos, '?', Some(q), IsQueryChar);
    var k := pos + 1 + |q|;
    StepLeads(url, s);
    QueryCharsPass(url, s, k);
    if f.None? {
      Skip(url, s, k - 1);
      StepLeads(url, s.(b := k - 1));
      QueryEnds(url, s, k, pos, q);
    } else {
      MarkAt(url, k, '#', f, IsQueryChar);
      Skip(url, s, k);
      StepLeads(url, s.(b := k));
      QueryToFragment(url, s, k, pos, q, f.value, Run(url, s));
    }
  }

  lemma QueryCharsPass(url: string, s: Scan, k: nat)
    requires s.state == Query && SchemeInside(url, s) && s.b <= k <= |url|
    requires forall i :: s.b <= i < k ==> IsQueryChar(url[i])
    ensures forall i :: s.b <= i < k && i + 1 < |url| ==> Passes(url, s, i)
  {
  }

  lemma QueryEnds(url: string, s: Scan, k: nat, pos: nat, q: string)
    requires s.state == Query && SchemeInside(url, s) && s.partStart == pos + 1 < k == |url| == pos + 1 + |q|
    requires IsQueryChar(url[k - 1])
    ensures Step(url, s.(b := k - 1)) == Done(true, TailParts(s.parts, pos, Some(q), None))
  {
  }

  lemma QueryToFragment(url: string, s: Scan, k: nat, pos: nat, q: string, f: string, r: (bool, Parts))
    requires s.state == Query && SchemeInside(url, s) && s.partStart == pos + 1 && k == pos + 1 + |q|
    requires k + 1 + |f| == |url| && url[k] == '#' && forall i :: k + 1 <= i < |url| ==> IsQueryChar(url[i])
    requires LeadsTo(url, Step(url, s.(b := k)), r)
    ensures r == (true, TailParts(s.parts, pos, Some(q), Some(f)))
  {
    hide Run, Inv, IsQueryChar;
    if f != "" {
      FragmentRun(url, Step(url, s.(b := k)).next);
    }
  }

  /** A '?' or '#' at `pos`, ending a component, is followed by the expected tail. */
  lemma TailRun(url: string, s: Scan, parts: Parts, pos: nat, q: Option<string>, f: Option<string>, r: (bool, Parts))
    requires TailAt(url, pos, q, f) && pos < |url|
    requires LeadsTo(url, Enter(url, s, parts, pos + 1, if url[pos] == '?' then Query else Fragment), r)
    ensures url[pos] == (if q.Some? then '?' else '#') && r == (true, TailParts(parts, pos, q, f))
  {
    hide Run, Inv;
    if q.Some? {
      MarkAt(url, pos, '?', q, IsQueryChar);
      if pos + 1 < |url| {
        QueryRun(url, s.(state := Query, b := pos + 1, partStart := pos + 1, parts := parts), pos, q.value, f);
      }
    } else {
      MarkAt(url, pos, '#', f, IsQueryChar);
      if pos + 1 < |url| {
        FragmentRun(url, s.(state := Fragment, b := pos + 1, partStart := pos + 1, parts := parts));
      }
    }
  }

  lemma PathRun(url: string, s: Scan, k: nat, q: Option<string>, f: Option<string>)
    requires Inv(url, s) && s.state == Path && s.b < k <= |url|
    requires forall i :: s.b <= i < k ==> IsPathChar(url[i])
    requires TailAt(url, k, q, f)
    ensures Run(url, s) == (true, TailParts(s.parts.(path := View(s.partStart, k)), k, q, f))
  {
    hide Run, Inv, IsPathChar, TailParts, TailAt;
    StepLeads(url, s);
    PathCharsPass(url, s, k);
    if k == |url| {
      Skip(url, s, k - 1);
      StepLeads(url, s.(b := k - 1));
      PathEnds(url, s, k, q, f);
    } else {
      Skip(url, s, k);
      StepLeads(url, s.(b := k));
      PathToTail(url, s.(b := k), q, f, Run(url, s));
    }
  }

  lemma PathCharsPass(url: string, s: Scan, k: nat)
    requires s.state == Path && SchemeInside(url, s) && s.b <= k <= |url|
    requires forall i :: s.b <= i < k ==> IsPathChar(url[i])
    ensures forall i :: s.b <= i < k && i + 1 < |url| ==> Passes(url, s, i)
  {
  }

  lemma PathEnds(url: string, s: Scan, k: nat, q: Option<string>, f: Option<string>)
    requires s.state == Path && SchemeInside(url, s) && 1 <= k == |url| && IsPathChar(url[k - 1]) && TailAt(url, k, q, f)
    ensures Step(url, s.(b := k - 1)) == Done(true, TailParts(s.parts.(path := View(s.partStart, k)), k, q, f))
  {
  }

  lemma PathToTail(url: string, s: Scan, q: Option<string>, f: Option<string>, r: (bool, Parts))
    requires s.state == Path && SchemeInside(url, s) && s.b < |url| && TailAt(url, s.b, q, f)
    requires LeadsTo(url, Step(url, s), r)
    ensures r == (true, TailParts(s.parts.(path := View(s.partStart, s.b)), s.b, q, f))
  {
    hide Run, Inv, TailParts;
    MarkHere(url, s.b, q, f);
    TailRun(url, s, s.parts.(path := View(s.partStart, s.b)), s.b, q, f, r);
  }

  lemma MarkHere(url: string, pos: nat, q: Option<string>, f: Option<string>)
    requires TailAt(url, pos, q, f) && pos < |url|
    ensures url[pos] == (if q.Some? then '?' else '#')
  {
    if q.Some? {
      MarkAt(url, pos, '?', q, IsQueryChar);
    } else {
      MarkAt(url, pos, '#', f, IsQueryChar);
    }
  }

  // ---- the end of the authority ----

  ghost predicate RestAt(url: string, pos: nat, u: Url) {
    && At(url, pos, u.path) && (u.path != "" ==> u.path[0] == '/') && All(IsPathChar, u.path)
    && TailAt(url, pos + |u.path|, u.query, u.fragment)
  }

  /** Where path, query and fragment end up, given that they begin at `pos`. */
  function RestParts(p: Parts, pos: nat, u: Url): Parts {
    TailParts(if u.path == "" then p else p.(path := View(pos, pos + |u.path|)), pos + |u.path|, u.query, u.fragment)
  }

  /** The character after the authority. */
  lemma AuthorityDone(url: string, s: Scan, parts: Parts, u: Url, r: (bool, Parts))
    requires s.state == Probe && SchemeInside(url, s) && s.b < |url| && RestAt(url, s.b, u)
    requires SetHost(s, s.b) == Authority(parts) && LeadsTo(url, Step(url, s), r)
    ensures r == (true, RestParts(parts, s.b, u))
  {
    hide Run, Inv, TailParts, SetHost, TailAt;
    if u.path != "" {
      assert url[s.b + 0] == u.path[0];
      AllAt(url, s.b, u.path, IsPathChar);
      PathRun(url, s.(state := Path, partStart := s.b, parts := parts), s.b + |u.path|, u.query, u.fragment);
    } else {
      MarkHere(url, s.b, u.query, u.fragment);
      TailRun(url, s, parts, s.b, u.query, u.fragment, r);
    }
  }

  /** The last character of the authority and what follows: `parts` holds the host and the port. */
  lemma AuthorityEnd(url: string, s: Scan, parts: Parts, u: Url)
    requires Inv(url, s) && s.state == Probe && s.b < |url| && RestAt(url, s.b + 1, u)
    requires IsNameChar(url[s.b]) || url[s.b] == ']'
    requires var t := Brackets(s, url[s.b], s.b + 1);
             SetHost(t, s.b + 1) == Authority(parts) && (t.isV6 ==> IsV6Char(url[s.b]) || url[s.b] == ']')
    ensures Run(url, s) == (true, RestParts(parts, s.b + 1, u))
  {
    var c, k := url[s.b], s.b + 1;
    var t := Brackets(s, c, k).(b := k);
    StepLeads(url, s);
    LastCharStep(url, s, parts);
    hide Run, Inv, Brackets, SetHost, RestAt, RestParts, Step;
    if k == |url| {
      NothingRests(url, k, parts, u);
    } else {
      StepLeads(url, t);
      AuthorityDone(url, t, parts, u, Run(url, t));
    }
  }

  lemma LastCharStep(url: string, s: Scan, parts: Parts)
    requires s.state == Probe && SchemeInside(url, s) && s.b < |url|
    requires IsNameChar(url[s.b]) || url[s.b] == ']'
    requires var t := Brackets(s, url[s.b], s.b + 1);
             SetHost(t, s.b + 1) == Authority(parts) && (t.isV6 ==> IsV6Char(url[s.b]) || url[s.b] == ']')
    ensures var t := Brackets(s, url[s.b], s.b + 1).(b := s.b + 1);
            && Step(url, s) == (if s.b + 1 == |url| then Done(true, parts) else Go(t))
            && t.state == Probe && SetHost(t, t.b) == Authority(parts)
  {
  }

  lemma NothingRests(url: string, pos: nat, parts: Parts, u: Url)
    requires RestAt(url, pos, u) && pos == |url|
    ensures RestParts(parts, pos, u) == parts
  {
  }

  // ---- host and port ----

  lemma ProbeCharsPass(url: string, s: Scan, k: nat)
    requires s.state == Probe && SchemeInside(url, s) && s.b <= k < |url|
    requires forall i :: s.b <= i < k ==> IsNameChar(url[i]) && (s.isV6 ==> IsV6Char(url[i]))
    ensures forall i :: s.b <= i < k ==> Passes(url, s, i)
  {
  }

  /** Characters of a name, or digits of a port, up to the end of the authority. */
  lemma AuthorityRun(url: string, s: Scan, k: nat, parts: Parts, u: Url)
    requires Inv(url, s) && s.state == Probe && s.b < k <= |url| && RestAt(url, k, u)
    requires forall i :: s.b <= i < k ==> IsNameChar(url[i]) && (s.isV6 ==> IsV6Char(url[i]))
    requires SetHost(s, k) == Authority(parts)
    ensures Run(url, s) == (true, RestParts(parts, k, u))
  {
    hide Run, Inv, RestAt, RestParts, Step, IsV6Char;
    StepLeads(url, s);
    ProbeCharsPass(url, s, k - 1);
    Skip(url, s, k - 1);
    AuthorityEnd(url, s.(b := k - 1), parts, u);
  }

  /** The ':' before a port, then its digits. `s.b` is at the ':'. */
  lemma PortRun(url: string, s: Scan, port: string, parts: Parts, u: Url)
    requires Inv(url, s) && s.state == Probe && s.probe.Unset? && s.b > s.partStart && port != "" && All(IsDigit, port)
    requires At(url, s.b, [':'] + port) && RestAt(url, s.b + 1 + |port|, u)
    requires SetHost(s.(probe := View(s.partStart, s.b)), s.b + 1 + |port|) == Authority(parts)
    ensures Run(url, s) == (true, RestParts(parts, s.b + 1 + |port|, u))
  {
    hide Run, Inv, RestAt, RestParts, SetHost;
    assert |[':'] + port| == 1 + |port|;
    var t := s.(b := s.b + 1, probe := View(s.partStart, s.b));
    MarkAt(url, s.b, ':', Some(port), IsDigit);
    StepLeads(url, s);
    SetHostIgnoresCursor(t, s.b, t.b + |port|);
    AuthorityRun(url, t, t.b + |port|, parts, u);
  }

  lemma SetHostIgnoresCursor(s: Scan, b: nat, end: nat)
    ensures SetHost(s, end) == SetHost(s.(b := b), end)
  {
  }

  ghost predicate AtAuthority(url: string, s: Scan, u: Url) {
    && Inv(url, s) && s.state == Probe && NoProbe(s) && s.b == s.partStart
    && At(url, s.b, PrintHost(u.host))
    && At(url, s.b + |PrintHost(u.host)|, Marked(':', u.port))
    && RestAt(url, s.b + |PrintHost(u.host)| + |Marked(':', u.port)|, u)
  }

  /** Where host and port end up in an authority that begins at `pos`. */
  function AuthorityParts(p: Parts, pos: nat, u: Url): Parts {
    var end := pos + |PrintHost(u.host)|;
    var p1 := p.(host := if u.host.Name? then View(pos, end) else View(pos + 1, end - 1));
    if u.port.Some? then p1.(port := View(end + 1, end + 1 + |u.port.value|)) else p1
  }

  lemma NameRun(url: string, s: Scan, u: Url)
    requires Valid(u) && u.host.Name? && AtAuthority(url, s, u) && s.parts.port.Unset?
    ensures Run(url, s) == (true, RestParts(AuthorityParts(s.parts, s.b, u), s.b + |PrintHost(u.host)| + |Marked(':', u.port)|, u))
  {
    hide Run, Inv, RestAt, RestParts, IsNameChar, Step;
    var k := s.b + |u.host.text|;
    AllAt(url, s.b, u.host.text, IsNameChar);
    if u.port.None? {
      AuthorityRun(url, s, k, AuthorityParts(s.parts, s.b, u), u);
    } else {
      StepLeads(url, s);
      ProbeCharsPass(url, s, k);
      Skip(url, s, k);
      PortRun(url, s.(b := k), u.port.value, AuthorityParts(s.parts, s.b, u), u);
    }
  }

  /** A probe that is set begins before the bracket, so it is not empty. */
  ghost predicate SolidProbe(s: Scan) {
    s.probe.View? ==> s.probe.from == s.partStart < s.probe.to
  }

  /** Inside the brackets only the probe changes. */
  lemma {:induction false} V6Skip(url: string, s: Scan, k: nat) returns (t: Scan)
    requires Inv(url, s) && s.state == Probe && s.isV6 && s.v6End.Null? && s.partStart < s.b <= k < |url| && SolidProbe(s)
    requires forall i :: s.b <= i < k ==> IsV6Char(url[i])
    ensures t == s.(b := k, probe := t.probe) && SolidProbe(t)
    ensures Inv(url, t) && Run(url, t) == Run(url, s)
    decreases k - s.b
  {
    hide Run, Inv, Step;
    if s.b == k {
      t := s;
    } else {
      StepLeads(url, s);
      V6CharStep(url, s);
      t := V6Skip(url, Step(url, s).next, k);
    }
  }

  lemma V6CharStep(url: string, s: Scan)
    requires s.state == Probe && SchemeInside(url, s) && s.isV6 && s.partStart < s.b && s.b + 1 < |url| && SolidProbe(s)
    requires IsV6Char(url[s.b])
    ensures var o := Step(url, s);
            o.Go? && o.next == s.(b := s.b + 1, probe := o.next.probe) && SolidProbe(o.next)
  {
  }

  lemma OpenBracketStep(url: string, s: Scan)
    requires s.state == Probe && SchemeInside(url, s) && NoProbe(s) && s.b + 1 < |url| && url[s.b] == '['
    ensures Step(url, s) == Go(s.(b := s.b + 1, isV6 := true, v6Start := Pointer.To(s.b + 1)))
  {
  }

  lemma CloseBracketStep(url: string, s: Scan)
    requires s.state == Probe && SchemeInside(url, s) && s.isV6 && s.v6End.Null? && s.b + 1 < |url| && url[s.b] == ']'
    requires SolidProbe(s)
    ensures Step(url, s) == Go(s.(b := s.b + 1, v6End := Pointer.To(s.b), probe := Unset))
  {
  }

  /** From '[' to the state at ']'. */
  lemma V6Open(url: string, s: Scan, text: string) returns (t: Scan)
    requires Inv(url, s) && s.state == Probe && NoProbe(s) && s.b == s.partStart
    requires text != "" && All(IsV6Char, text) && At(url, s.b, "[" + text + "]")
    ensures t == s.(b := s.b + 1 + |text|, isV6 := true, v6Start := Pointer.To(s.b + 1), probe := t.probe)
    ensures SolidProbe(t) && Inv(url, t) && Run(url, t) == Run(url, s) && t.b < |url| && url[t.b] == ']'
  {
    hide Run, Inv, Step, IsV6Char;
    var k := s.b + 1 + |text|;
    BracketsAt(url, s.b, text);
    StepLeads(url, s);
    OpenBracketStep(url, s);
    t := V6Skip(url, s.(b := s.b + 1, isV6 := true, v6Start := Pointer.To(s.b + 1)), k);
  }

  lemma BracketsAt(url: string, pos: nat, text: string)
    requires At(url, pos, "[" + text + "]") && All(IsV6Char, text)
    ensures pos + 1 + |text| < |url| && url[pos] == '[' && url[pos + 1 + |text|] == ']'
    ensures forall i :: pos + 1 <= i < pos + 1 + |text| ==> IsV6Char(url[i])
  {
    hide IsV6Char;
    AtSplit(url, pos, "[" + text, "]");
    AtSplit(url, pos, "[", text);
    assert url[pos + 0] == "["[0];
    assert url[pos + |"[" + text| + 0] == "]"[0];
    AllAt(url, pos + 1, text, IsV6Char);
  }

  lemma V6Run(url: string, s: Scan, u: Url)
    requires Valid(u) && u.host.V6? && AtAuthority(url, s, u) && s.parts.port.Unset?
    ensures Run(url, s) == (true, RestParts(AuthorityParts(s.parts, s.b, u), s.b + |PrintHost(u.host)| + |Marked(':', u.port)|, u))
  {
    hide Run, Inv, RestAt, RestParts, Step, IsV6Char, At;
    var parts := AuthorityParts(s.parts, s.b, u);
    var t := V6Open(url, s, u.host.text);
    StepLeads(url, t);
    if u.port.None? {
      AuthorityEnd(url, t, parts, u);
    } else {
      AtInside(url, s.b + |PrintHost(u.host)|, Marked(':', u.port));
      CloseBracketStep(url, t);
      PortRun(url, t.(b := t.b + 1, v6End := Pointer.To(t.b), probe := Unset), u.port.value, parts, u);
    }
  }

  lemma AtInside(url: string, pos: nat, piece: string)
    requires At(url, pos, piece)
    ensures pos + |piece| <= |url|
  {
  }

  // ---- the scheme, and the whole URL ----

  lemma SchemeCharsPass(url: string, s: Scan, k: nat)
    requires s.state == Scheme && SchemeInside(url, s) && s.b <= k <= |url|
    requires forall i :: s.b <= i < k ==> IsSchemeChar(url[i])
    ensures forall i :: s.b <= i < k ==> Passes(url, s, i)
  {
  }

  /** The state at the beginning of the authority, after a scheme of `n` characters and "://". */
  function AuthorityStart(n: nat): Scan {
    Scan(Probe, n + 3, n + 3, Null, Null, false, Unset, NO_PARTS.(scheme := View(0, n)))
  }

  lemma SchemeRun(url: string, n: nat)
    requires 1 <= n && n + 3 < |url| && IsAlpha(url[0]) && forall i :: 0 <= i < n ==> IsSchemeChar(url[i])
    requires url[n] == ':' && url[n + 1] == '/' && url[n + 2] == '/' && url[n + 3] != '/'
    ensures Inv(url, AuthorityStart(n)) && Run(url, AuthorityStart(n)) == Parsed(url)
  {
    hide Run, Laid, IsSchemeChar;
    NothingLaid(0);
    StepLeads(url, START);
    var s := START.(state := Scheme, b := 1);
    StepLeads(url, s);
    SchemeCharsPass(url, s, n);
    Skip(url, s, n);
    StepLeads(url, s.(b := n));
    ColonSlashes(url, s.(b := n));
    var t := START.(state := SlashStart, b := n + 1, parts := NO_PARTS.(scheme := View(0, n)));
    StepLeads(url, t);
    StepLeads(url, t.(state := Slash, b := n + 2));
  }

  /** No step of "://" is taken differently for the scheme "file", as the host does not begin with '/'. */
  lemma ColonSlashes(url: string, s: Scan)
    requires s.state == Scheme && SchemeInside(url, s) && s.partStart == 0 && s.b + 3 < |url|
    requires url[s.b] == ':' && url[s.b + 1] == '/' && url[s.b + 2] == '/' && url[s.b + 3] != '/'
    ensures var t := s.(state := SlashStart, b := s.b + 1, parts := s.parts.(scheme := View(0, s.b)));
            && Step(url, s) == Go(t)
            && Step(url, t) == Go(t.(state := Slash, b := t.b + 1))
            && Step(url, t.(state := Slash, b := t.b + 1)) == Go(t.(state := Probe, b := t.b + 2, partStart := t.b + 2))
  {
  }

  /** The printed text has its pieces where the scan expects them. */
  ghost predicate PiecesAt(url: string, u: Url) {
    var n, h, p := |u.scheme|, |PrintHost(u.host)|, |Marked(':', u.port)|;
    && At(url, 0, u.scheme) && At(url, n, "://") && At(url, n + 3, PrintHost(u.host))
    && At(url, n + 3 + h, Marked(':', u.port)) && RestAt(url, n + 3 + h + p, u)
  }

  lemma PrintedPieces(u: Url)
    requires Valid(u)
    ensures PiecesAt(Print(u), u)
  {
    hide At, Valid, Rest, RestAt, PrintHost, Marked;
    FivePieces(Print(u), u.scheme, "://", PrintHost(u.host), Marked(':', u.port), Rest(u));
    RestPieces(Print(u), |u.scheme| + 3 + |PrintHost(u.host)| + |Marked(':', u.port)|, u);
  }

  lemma FivePieces(url: string, a: string, b: string, c: string, d: string, e: string)
    requires url == a + (b + (c + (d + e)))
    ensures At(url, 0, a) && At(url, |a|, b) && At(url, |a| + |b|, c) && At(url, |a| + |b| + |c|, d)
    ensures At(url, |a| + |b| + |c| + |d|, e) && |a| + |b| + |c| + |d| + |e| == |url|
  {
    hide At;
    AtSelf(url);
    TwoSplits(url, 0, a, b, c + (d + e));
    TwoSplits(url, |a| + |b|, c, d, e);
  }

  lemma TwoSplits(url: string, pos: nat, a: string, b: string, c: string)
    requires At(url, pos, a + (b + c))
    ensures At(url, pos, a) && At(url, pos + |a|, b) && At(url, pos + |a| + |b|, c)
  {
    hide At;
    AtSplit(url, pos, a, b + c);
    AtSplit(url, pos + |a|, b, c);
  }

  lemma AtSelf(url: string)
    ensures At(url, 0, url)
  {
  }

  lemma RestPieces(url: string, pos: nat, u: Url)
    requires Valid(u) && At(url, pos, Rest(u)) && pos + |Rest(u)| == |url|
    ensures RestAt(url, pos, u)
  {
    hide At, All, IsSchemeChar, IsNameChar, IsV6Char, IsPathChar, IsQueryChar;
    var q, f := Marked('?', u.query), Marked('#', u.fragment);
    AtSplit(url, pos, u.path, q + f);
    AtSplit(url, pos + |u.path|, q, f);
  }

  function OrEmpty(o: Option<string>): string {
    match o case None => "" case Some(v) => v
  }

  /** The slices in `p` spell exactly the components of `u`. */
  ghost predicate Spells(url: string, p: Parts, u: Url) {
    && Chained(p, |url|)
    && Text(url, p.scheme) == u.scheme && p.username.Unset? && p.password.Unset?
    && Text(url, p.host) == u.host.text && Text(url, p.port) == OrEmpty(u.port)
    && Text(url, p.path) == u.path && Text(url, p.query) == OrEmpty(u.query)
    && Text(url, p.fragment) == OrEmpty(u.fragment)
  }

  /** For every URL built from the parser's own character classes, `parse` accepts its printed form
      and returns exactly its components. */
  lemma ParsePrint(u: Url)
    requires Valid(u)
    ensures Parsed(Print(u)).0 && Spells(Print(u), Parsed(Print(u)).1, u)
  {
    hide Valid, Run, Parsed, Inv, Print, RestAt, At, RestParts, AuthorityParts, Spells, AuthorityStart;
    var url, n := Print(u), |u.scheme|;
    PrintedPieces(u);
    FrontOf(url, u);
    SchemeRun(url, n);
    AuthorityBegins(url, u);
    if u.host.Name? {
      NameRun(url, AuthorityStart(n), u);
    } else {
      V6Run(url, AuthorityStart(n), u);
    }
    StartFields(n);
    ParsedChained(url);
    PartsSpell(url, u, Parsed(url).1);
  }

  lemma StartFields(n: nat)
    ensures AuthorityStart(n).b == n + 3 && AuthorityStart(n).parts == NO_PARTS.(scheme := View(0, n))
  {
  }

  lemma ParsedChained(url: string)
    ensures Chained(Parsed(url).1, |url|)
  {
    assert Laid(Parsed(url).1, 8, |url|);
  }

  lemma FrontOf(url: string, u: Url)
    requires Valid(u) && PiecesAt(url, u)
    ensures var n := |u.scheme|;
            && n + 3 < |url| && IsAlpha(url[0]) && (forall i :: 0 <= i < n ==> IsSchemeChar(url[i]))
            && url[n] == ':' && url[n + 1] == '/' && url[n + 2] == '/' && url[n + 3] != '/'
  {
    var n := |u.scheme|;
    AllAt(url, 0, u.scheme, IsSchemeChar);
    assert url[0 + 0] == u.scheme[0];
    assert url[n + 0] == "://"[0] && url[n + 1] == "://"[1] && url[n + 2] == "://"[2];
    assert url[n + 3 + 0] == PrintHost(u.host)[0];
  }

  lemma AuthorityBegins(url: string, u: Url)
    requires Inv(url, AuthorityStart(|u.scheme|)) && PiecesAt(url, u)
    ensures AtAuthority(url, AuthorityStart(|u.scheme|), u) && AuthorityStart(|u.scheme|).parts.port.Unset?
  {
    hide Inv, At, RestAt;
  }

  /** The slices found spell the components that were printed. */
  lemma PartsSpell(url: string, u: Url, p: Parts)
    requires PiecesAt(url, u) && Chained(p, |url|)
    requires var n, h := |u.scheme|, |PrintHost(u.host)|;
             p == RestParts(AuthorityParts(NO_PARTS.(scheme := View(0, n)), n + 3, u), n + 3 + h + |Marked(':', u.port)|, u)
    ensures Spells(url, p, u)
  {
    hide RestParts, AuthorityParts, RestAt, At, Text, Chained, PrintHost, Marked, IsMarkedView, OrEmpty;
    var n, h := |u.scheme|, |PrintHost(u.host)|;
    var r := n + 3 + h + |Marked(':', u.port)|;
    PartFields(NO_PARTS.(scheme := View(0, n)), n + 3, r, u);
    FrontSpells(url, u, p);
    RestSpells(url, r, u, p);
  }

  lemma FrontSpells(url: string, u: Url, p: Parts)
    requires At(url, 0, u.scheme) && At(url, |u.scheme| + 3, PrintHost(u.host))
    requires At(url, |u.scheme| + 3 + |PrintHost(u.host)|, Marked(':', u.port))
    requires var n, h := |u.scheme|, |PrintHost(u.host)|;
             && p.scheme == View(0, n) && IsMarkedView(p.port, n + 3 + h, u.port)
             && p.host == (if u.host.Name? then View(n + 3, n + 3 + h) else View(n + 4, n + 3 + h - 1))
    ensures p.scheme.View? ==> p.scheme.from <= p.scheme.to <= |url|
    ensures p.host.View? ==> p.host.from <= p.host.to <= |url|
    ensures p.port.View? ==> p.port.from <= p.port.to <= |url|
    ensures Text(url, p.scheme) == u.scheme && Text(url, p.host) == u.host.text && Text(url, p.port) == OrEmpty(u.port)
  {
    hide At, Text, IsMarkedView, OrEmpty, Marked;
    var n, h := |u.scheme|, |PrintHost(u.host)|;
    TextAt(url, 0, u.scheme);
    AtInside(url, 0, u.scheme);
    TextOf(url, p.scheme, 0, u.scheme);
    HostSpells(url, n + 3, u.host);
    TextOf(url, p.host, if u.host.Name? then n + 3 else n + 4, u.host.text);
    MarkedSpells(url, n + 3 + h, ':', u.port);
    MarkedText(url, p.port, n + 3 + h, u.port);
  }

  lemma RestSpells(url: string, r: nat, u: Url, p: Parts)
    requires RestAt(url, r, u)
    requires var q := r + |u.path|;
             var e := q + |Marked('?', u.query)|;
             && p.path == (if u.path == "" then Unset else View(r, q))
             && IsMarkedView(p.query, q, u.query) && IsMarkedView(p.fragment, e, u.fragment)
    ensures p.path.View? ==> p.path.from <= p.path.to <= |url|
    ensures p.query.View? ==> p.query.from <= p.query.to <= |url|
    ensures p.fragment.View? ==> p.fragment.from <= p.fragment.to <= |url|
    ensures Text(url, p.path) == u.path && Text(url, p.query) == OrEmpty(u.query) && Text(url, p.fragment) == OrEmpty(u.fragment)
  {
    hide At, All, Text, IsPathChar, IsQueryChar, IsMarkedView, OrEmpty, Marked;
    var q := r + |u.path|;
    AtInside(url, r, u.path);
    TextAt(url, r, u.path);
    TextOf(url, p.path, r, u.path);
    MarkedSpells(url, q, '?', u.query);
    MarkedText(url, p.query, q, u.query);
    MarkedSpells(url, q + |Marked('?', u.query)|, '#', u.fragment);
    MarkedText(url, p.fragment, q + |Marked('?', u.query)|, u.fragment);
  }

  /** The slice of an optional component; an empty one may be left unset. */
  ghost predicate IsMarkedView(v: View, pos: nat, o: Option<string>) {
    if o.None? then v == Unset
    else v == View(pos + 1, pos + 1 + |o.value|) || (v == Unset && o.value == "")
  }

  lemma TextOf(url: string, v: View, pos: nat, t: string)
    requires pos + |t| <= |url| && url[pos..pos + |t|] == t
    requires v == View(pos, pos + |t|) || (v == Unset && t == "")
    ensures (v.View? ==> v.from <= v.to <= |url|) && Text(url, v) == t
  {
  }

  lemma MarkedText(url: string, v: View, pos: nat, o: Option<string>)
    requires o.Some? ==> pos + 1 + |o.value| <= |url| && url[pos + 1..pos + 1 + |o.value|] == o.value
    requires IsMarkedView(v, pos, o)
    ensures (v.View? ==> v.from <= v.to <= |url|) && Text(url, v) == OrEmpty(o)
  {
  }

  lemma PartFields(p0: Parts, pos: nat, r: nat, u: Url)
    requires r == pos + |PrintHost(u.host)| + |Marked(':', u.port)| && p0 == NO_PARTS.(scheme := p0.scheme)
    ensures var p := RestParts(AuthorityParts(p0, pos, u), r, u);
            var h, q := pos + |PrintHost(u.host)|, r + |u.path|;
            var e := q + |Marked('?', u.query)|;
            && p.scheme == p0.scheme && p.username.Unset? && p.password.Unset?
            && p.host == (if u.host.Name? then View(pos, h) else View(pos + 1, h - 1))
            && p.path == (if u.path == "" then Unset else View(r, q))
            && IsMarkedView(p.port, h, u.port) && IsMarkedView(p.query, q, u.query) && IsMarkedView(p.fragment, e, u.fragment)
  {
  }

  lemma HostSpells(url: string, pos: nat, h: HostText)
    requires At(url, pos, PrintHost(h))
    ensures pos + |PrintHost(h)| <= |url|
    ensures h.Name? ==> url[pos..pos + |h.text|] == h.text
    ensures h.V6? ==> url[pos + 1..pos + 1 + |h.text|] == h.text
  {
    if h.V6? {
      AtSplit(url, pos, "[" + h.text, "]");
      AtSplit(url, pos, "[", h.text);
      TextAt(url, pos + 1, h.text);
    } else {
      TextAt(url, pos, h.text);
    }
  }

  lemma MarkedSpells(url: string, pos: nat, mark: char, o: Option<string>)
    requires At(url, pos, Marked(mark, o))
    ensures o.Some? ==> pos + 1 + |o.value| <= |url| && url[pos + 1..pos + 1 + |o.value|] == o.value
  {
    if o.Some? {
      AtSplit(url, pos, [mark], o.value);
      TextAt(url, pos + 1, o.value);
    }
  }
}
