/** URLs with user information: the branch of the parser that finds a '@'. It treats a few authorities
    differently from the branch without, and those are singled out here. */
module UriUserInfo {
  import opened Wrappers
  import opened UriChars
  import opened UriParser
  import opened UriRoundTrip

  datatype Login = Login(user: string, password: Option<string>)

  predicate IsPasswordChar(c: char) {
    IsNameChar(c) || c == ':'
  }

  ghost predicate ValidLogin(l: Login) {
    && All(IsNameChar, l.user)
    && (l.password.Some? ==> l.user != "" && All(IsPasswordChar, l.password.value))
  }

  function PrintLogin(l: Login): string {
    l.user + (Marked(':', l.password) + "@")
  }

  function PrintWith(l: Login, u: Url): string {
    u.scheme + ("://" + (PrintLogin(l) + (PrintHost(u.host) + (Marked(':', u.port) + Rest(u)))))
  }

  /** The authorities that this branch does not read as they were printed: a host name of one character
      or a port of one digit at the end of the text, a host name before a single last character, and a
      bracketed host before a last '?' or '#'. */
  predicate Misread(u: Url) {
    if u.port.Some? then |u.port.value| == 1 && Rest(u) == ""
    else if u.host.Name? then (|u.host.text| == 1 && Rest(u) == "") || |Rest(u)| == 1
    else Rest(u) == "?" || Rest(u) == "#"
  }

  // ---- up to the '@' ----

  /** What is set when the '@' has been read, the user information being at `pos`. */
  function LoginParts(p: Parts, pos: nat, l: Login): Parts {
    var end := pos + |l.user|;
    match l.password
    case None => p.(username := View(pos, end))
    case Some(w) => p.(username := View(pos, end), password := View(end + 1, end + 1 + |w|))
  }

  ghost predicate LoginAt(url: string, pos: nat, l: Login) {
    && At(url, pos, l.user) && At(url, pos + |l.user|, Marked(':', l.password))
    && At(url, pos + |l.user| + |Marked(':', l.password)|, "@")
  }

  lemma PasswordCharsPass(url: string, s: Scan, k: nat)
    requires s.state == Probe && SchemeInside(url, s) && s.b <= k < |url| && !s.probe.Empty() && !s.isV6
    requires forall i :: s.b <= i < k ==> IsPasswordChar(url[i])
    ensures forall i :: s.b <= i < k ==> Passes(url, s, i)
  {
  }

  lemma UserMarks(url: string, pos: nat, l: Login)
    requires LoginAt(url, pos, l) && ValidLogin(l)
    ensures var k := pos + |l.user|;
      var e := k + |Marked(':', l.password)|;
      && k <= e < |url| && url[e] == '@' && (forall i :: pos <= i < k ==> IsNameChar(url[i]))
      && (l.password.Some? ==> url[k] == ':' && forall i :: k + 1 <= i < e ==> IsPasswordChar(url[i]))
  {
    hide IsNameChar, IsPasswordChar;
    var k := pos + |l.user|;
    AllAt(url, pos, l.user, IsNameChar);
    assert url[k + |Marked(':', l.password)| + 0] == "@"[0];
    if l.password.Some? {
      MarkAt(url, k, ':', l.password, IsPasswordChar);
    }
  }

  lemma AtStep(url: string, s: Scan)
    requires s.state == Probe && SchemeInside(url, s) && s.b < |url| && url[s.b] == '@'
    ensures Step(url, s) == Go(s.(state := HostStart, b := s.b + 1, partStart := s.b + 1, isV6 := false,
      parts := if s.probe.Empty() then s.parts.(username := View(s.partStart, s.b))
               else s.parts.(password := View(s.probe.to + 1, s.b), username := s.probe)))
  {
  }

  lemma ColonStep(url: string, s: Scan)
    requires s.state == Probe && SchemeInside(url, s) && s.b < |url| && url[s.b] == ':' && s.probe.Unset?
    ensures Step(url, s) == Go(s.(b := s.b + 1, probe := View(s.partStart, s.b)))
  {
  }

  /** From the beginning of the authority to the state after the '@'. */
  lemma LoginRun(url: string, s: Scan, l: Login) returns (t: Scan)
    requires Inv(url, s) && s.state == Probe && NoProbe(s) && s.b == s.partStart && LoginAt(url, s.b, l) && ValidLogin(l)
    ensures var q := s.b + |PrintLogin(l)|;
      && t == Scan(HostStart, q, q, t.v6Start, t.v6End, false, t.probe, LoginParts(s.parts, s.b, l))
      && Inv(url, t) && Run(url, t) == Run(url, s)
  {
    hide Run, Inv, Step, At, IsNameChar, IsPasswordChar, ValidLogin;
    UserMarks(url, s.b, l);
    var k := s.b + |l.user|;
    StepLeads(url, s);
    ProbeCharsPass(url, s, k);
    Skip(url, s, k);
    var a := s.(b := k);
    StepLeads(url, a);
    if l.password.None? {
      AtStep(url, a);
      t := Step(url, a).next;
    } else {
      ColonStep(url, a);
      UserNotEmpty(l);
      var c := a.(b := k + 1, probe := View(s.partStart, k));
      var e := k + 1 + |l.password.value|;
      StepLeads(url, c);
      PasswordCharsPass(url, c, e);
      Skip(url, c, e);
      StepLeads(url, c.(b := e));
      AtStep(url, c.(b := e));
      t := Step(url, c.(b := e)).next;
    }
  }

  lemma UserNotEmpty(l: Login)
    requires ValidLogin(l) && l.password.Some?
    ensures l.user != ""
  {
  }

  // ---- the rest, after host or port ----

  /** The character after the host or the port enters path, query or fragment with `parts` set. */
  ghost predicate Enters(url: string, s: Scan, parts: Parts)
    requires s.b < |url| && SchemeInside(url, s)
  {
    Step(url, s) ==
    if url[s.b] == '/' then Go(s.(state := Path, partStart := s.b, parts := parts))
    else Enter(url, s, parts, s.b + 1, if url[s.b] == '?' then Query else Fragment)
  }

  lemma RestRun(url: string, s: Scan, parts: Parts, u: Url)
    requires Inv(url, s) && s.b < |url| && RestAt(url, s.b, u) && SchemeInside(url, s) && Enters(url, s, parts)
    ensures Run(url, s) == (true, RestParts(parts, s.b, u))
  {
    hide Run, Inv, TailParts, TailAt, Step;
    StepLeads(url, s);
    if u.path != "" {
      assert url[s.b + 0] == u.path[0];
      AllAt(url, s.b, u.path, IsPathChar);
      PathRun(url, s.(state := Path, partStart := s.b, parts := parts), s.b + |u.path|, u.query, u.fragment);
    } else {
      MarkHere(url, s.b, u.query, u.fragment);
      TailRun(url, s, parts, s.b, u.query, u.fragment, Run(url, s));
    }
  }

  lemma RestMark(url: string, pos: nat, u: Url)
    requires RestAt(url, pos, u) && pos < |url|
    ensures Rest(u) != "" && url[pos] == Rest(u)[0] && (url[pos] == '/' || url[pos] == '?' || url[pos] == '#')
    ensures url[pos] == (if u.path != "" then '/' else if u.query.Some? then '?' else '#')
  {
    hide TailAt, IsPathChar;
    if u.path != "" {
      assert url[pos + 0] == u.path[0];
    } else {
      MarkHere(url, pos, u.query, u.fragment);
      TailInside(url, pos, u.query, u.fragment);
    }
  }

  lemma TailInside(url: string, pos: nat, q: Option<string>, f: Option<string>)
    requires TailAt(url, pos, q, f)
    ensures pos + |Marked('?', q) + Marked('#', f)| == |url|
  {
  }

  lemma RestSize(url: string, pos: nat, u: Url)
    requires RestAt(url, pos, u)
    ensures pos + |Rest(u)| == |url|
  {
  }

  // ---- the port ----

  lemma PortCharsPass(url: string, s: Scan, k: nat)
    requires s.state == Port && SchemeInside(url, s) && s.b <= k < |url| && forall i :: s.b <= i < k ==> IsDigit(url[i])
    ensures forall i :: s.b <= i < k ==> Passes(url, s, i)
  {
  }

  lemma PortEnters(url: string, s: Scan)
    requires s.state == Port && SchemeInside(url, s) && s.b < |url|
    requires url[s.b] == '/' || url[s.b] == '?' || url[s.b] == '#'
    ensures Enters(url, s, s.parts.(port := View(s.partStart, s.b)))
  {
  }

  lemma PortBegins(url: string, s: Scan)
    requires s.state == PortStart && SchemeInside(url, s) && s.b < |url| && IsDigit(url[s.b])
    ensures Step(url, s) == Go(s.(state := Port, b := s.b + 1))
  {
  }

  lemma LastDigit(url: string, s: Scan)
    requires s.state == Port && SchemeInside(url, s) && s.b + 1 == |url| && IsDigit(url[s.b])
    ensures Step(url, s) == Done(true, s.parts.(port := View(s.partStart, s.b + 1)))
  {
  }

  lemma RunAtEnd(url: string, s: Scan)
    requires Inv(url, s) && s.b == |url|
    ensures Run(url, s) == (false, s.parts)
  {
  }

  /** The digits of a port and what follows; `s.b` is at the first digit. A single digit at the end of
      the text is not accepted. */
  lemma PortAfterHost(url: string, s: Scan, port: string, u: Url)
    requires Inv(url, s) && s.state == PortStart && s.b == s.partStart && port != "" && s.b + |port| <= |url|
    requires forall i :: s.b <= i < s.b + |port| ==> IsDigit(url[i])
    requires RestAt(url, s.b + |port|, u)
    ensures var k := s.b + |port|;
      Run(url, s) == if k == |url| && |port| == 1 then (false, s.parts)
                     else (true, RestParts(s.parts.(port := View(s.partStart, k)), k, u))
  {
    hide Run, Inv, Step, IsDigit, RestParts, RestAt;
    var k := s.b + |port|;
    var parts := s.parts.(port := View(s.partStart, k));
    StepLeads(url, s);
    PortBegins(url, s);
    var t := s.(state := Port, b := s.b + 1);
    if t.b == |url| {
      RunAtEnd(url, t);
    } else {
      StepLeads(url, t);
      if k == |url| {
        PortCharsPass(url, t, k - 1);
        Skip(url, t, k - 1);
        StepLeads(url, t.(b := k - 1));
        LastDigit(url, t.(b := k - 1));
        NothingRests(url, k, parts, u);
      } else {
        RestMark(url, k, u);
        PortCharsPass(url, t, k);
        Skip(url, t, k);
        PortEnters(url, t.(b := k));
        RestRun(url, t.(b := k), parts, u);
      }
    }
  }

  // ---- a host name ----

  lemma NameCharsPass(url: string, s: Scan, k: nat)
    requires s.state == Host && SchemeInside(url, s) && s.b <= k < |url| && !s.isV6
    requires forall i :: s.b <= i < k ==> IsNameChar(url[i])
    ensures forall i :: s.b <= i < k ==> Passes(url, s, i)
  {
  }

  lemma NameBegins(url: string, s: Scan)
    requires s.state == HostStart && SchemeInside(url, s) && s.b < |url| && IsNameChar(url[s.b])
    ensures Step(url, s) == Go(s.(state := Host, b := s.b + 1))
  {
  }

  lemma NameEnds(url: string, s: Scan)
    requires s.state == Host && SchemeInside(url, s) && s.b + 1 == |url| && !s.isV6
    ensures var c := url[s.b];
      Step(url, s) == Done(true, s.parts.(host := View(s.partStart, if c == '/' || c == ']' then s.b else |url|)))
  {
  }

  lemma NameEnters(url: string, s: Scan)
    requires s.state == Host && SchemeInside(url, s) && s.b + 1 < |url| && !s.isV6
    ensures var c := url[s.b];
      var parts := s.parts.(host := View(s.partStart, s.b));
      && (c == '/' || c == '?' || c == '#' ==> Enters(url, s, parts))
      && (c == ':' ==> Step(url, s) == Go(s.(state := PortStart, b := s.b + 1, partStart := s.b + 1, parts := parts)))
  {
  }

  ghost predicate AtHost(url: string, s: Scan, u: Url) {
    && Inv(url, s) && s.state == HostStart && s.b == s.partStart && !s.isV6
    && At(url, s.b, PrintHost(u.host))
    && At(url, s.b + |PrintHost(u.host)|, Marked(':', u.port))
    && RestAt(url, s.b + |PrintHost(u.host)| + |Marked(':', u.port)|, u)
  }

  /** What is found of host, port and rest when the host begins at `pos` and `p0` is already set. */
  ghost predicate Found(url: string, p0: Parts, pos: nat, u: Url, r: (bool, Parts)) {
    var q := pos + |PrintHost(u.host)|;
    if !Misread(u) then r == (true, RestParts(AuthorityParts(p0, pos, u), q + |Marked(':', u.port)|, u))
    else
      && r.1.username == p0.username && r.1.password == p0.password
      && (r.0 ==> if Rest(u) == "/" then r.1.path == p0.path else r.1.host == View(pos, q + 1))
  }

  function HostParts(p: Parts, pos: nat, h: HostText): Parts {
    var end := pos + |PrintHost(h)|;
    p.(host := if h.Name? then View(pos, end) else View(pos + 1, end - 1))
  }

  /** The host read, then the port as PortAfterHost says. */
  lemma PortFound(url: string, p0: Parts, pos: nat, u: Url, r: (bool, Parts))
    requires u.port.Some? && u.port.value != ""
    requires var m := pos + |PrintHost(u.host)| + 1;
      var k := m + |u.port.value|;
      var parts := HostParts(p0, pos, u.host);
      && k + |Rest(u)| == |url|
      && r == if k == |url| && |u.port.value| == 1 then (false, parts) else (true, RestParts(parts.(port := View(m, k)), k, u))
    ensures Found(url, p0, pos, u, r)
  {
    hide RestParts, Rest, PrintHost;
  }

  /** The host read, no port, then the rest. */
  lemma RestFound(url: string, p0: Parts, pos: nat, u: Url, r: (bool, Parts))
    requires u.port.None? && !Misread(u)
    requires r == (true, RestParts(HostParts(p0, pos, u.host), pos + |PrintHost(u.host)|, u))
    ensures Found(url, p0, pos, u, r)
  {
    hide RestParts, Rest, PrintHost, Misread;
  }

  lemma RejectedFound(url: string, p0: Parts, pos: nat, u: Url, r: (bool, Parts))
    requires Misread(u) && !r.0 && r.1.username == p0.username && r.1.password == p0.password
    ensures Found(url, p0, pos, u, r)
  {
    hide Misread;
  }

  lemma PortMarks(url: string, pos: nat, u: Url)
    requires At(url, pos, Marked(':', u.port)) && u.port.Some? && All(IsDigit, u.port.value)
    ensures url[pos] == ':' && pos + 1 + |u.port.value| <= |url|
    ensures forall i :: pos + 1 <= i < pos + 1 + |u.port.value| ==> IsDigit(url[i])
  {
    MarkAt(url, pos, ':', u.port, IsDigit);
  }

  lemma NameFound(url: string, s: Scan, u: Url)
    requires Valid(u) && u.host.Name? && AtHost(url, s, u)
    requires s.parts.port.Unset? && s.parts.path.Unset?
    ensures Found(url, s.parts, s.b, u, Run(url, s))
  {
    hide Run, Inv, Step, IsNameChar, RestParts, RestAt, Rest, Found, Valid, Misread;
    var k := s.b + |u.host.text|;
    ValidName(u);
    AllAt(url, s.b, u.host.text, IsNameChar);
    StepLeads(url, s);
    NameBegins(url, s);
    var t := s.(state := Host, b := s.b + 1);
    AtInside(url, k, Marked(':', u.port));
    RestSize(url, k + |Marked(':', u.port)|, u);
    if t.b == |url| {
      RunAtEnd(url, t);
      ShortName(u);
      RejectedFound(url, s.parts, s.b, u, Run(url, s));
    } else if k == |url| {
      NameIsLast(url, t, u);
      LongName(u);
      NothingRests(url, k, HostParts(s.parts, s.b, u.host), u);
      RestFound(url, s.parts, s.b, u, Run(url, s));
    } else {
      StepLeads(url, t);
      NameCharsPass(url, t, k);
      Skip(url, t, k);
      NameThen(url, t.(b := k), u);
    }
  }

  lemma ValidName(u: Url)
    requires Valid(u) && u.host.Name?
    ensures u.host.text != "" && All(IsNameChar, u.host.text)
  {
  }

  lemma ShortName(u: Url)
    requires u.host.Name? && |u.host.text| == 1 && u.port.None? && Rest(u) == ""
    ensures Misread(u)
  {
  }

  lemma LongName(u: Url)
    requires u.host.Name? && |u.host.text| >= 2 && u.port.None? && Rest(u) == ""
    ensures !Misread(u)
  {
  }

  /** A name of two characters or more that ends the text. */
  lemma NameIsLast(url: string, t: Scan, u: Url)
    requires Inv(url, t) && t.state == Host && !t.isV6 && t.b == t.partStart + 1 < |url|
    requires u.host.Name? && All(IsNameChar, u.host.text) && At(url, t.partStart, u.host.text)
    requires t.partStart + |u.host.text| == |url|
    ensures Run(url, t) == (true, t.parts.(host := View(t.partStart, |url|)))
  {
    hide Run, Inv, Step, IsNameChar;
    var k := |url|;
    AllAt(url, t.partStart, u.host.text, IsNameChar);
    StepLeads(url, t);
    NameCharsPass(url, t, k - 1);
    Skip(url, t, k - 1);
    StepLeads(url, t.(b := k - 1));
    NameEnds(url, t.(b := k - 1));
    NotAMark(url[k - 1]);
  }

  lemma NotAMark(c: char)
    requires IsNameChar(c)
    ensures c != '/' && c != ']'
  {
  }

  /** After a host name: the port, or the rest, or a single last character. */
  lemma NameThen(url: string, s: Scan, u: Url)
    requires Inv(url, s) && s.state == Host && !s.isV6 && s.partStart < s.b < |url| && s.b == s.partStart + |u.host.text|
    requires Valid(u) && u.host.Name? && s.parts.port.Unset? && s.parts.path.Unset?
    requires At(url, s.b, Marked(':', u.port)) && RestAt(url, s.b + |Marked(':', u.port)|, u)
    ensures Found(url, s.parts, s.partStart, u, Run(url, s))
  {
    hide Run, Inv, Step, RestParts, RestAt, Rest, Found, Misread, Valid, At;
    var parts := s.parts.(host := View(s.partStart, s.b));
    StepLeads(url, s);
    RestSize(url, s.b + |Marked(':', u.port)|, u);
    if u.port.Some? {
      ValidPort(u);
      PortMarks(url, s.b, u);
      NameEnters(url, s);
      PortAfterHost(url, s.(state := PortStart, b := s.b + 1, partStart := s.b + 1, parts := parts), u.port.value, u);
      PortFound(url, s.parts, s.partStart, u, Run(url, s));
    } else {
      RestMark(url, s.b, u);
      if s.b + 1 == |url| {
        NameEnds(url, s);
        OneMoreFound(url, s.parts, s.partStart, u, url[s.b], Run(url, s));
      } else {
        NameEnters(url, s);
        RestRun(url, s, parts, u);
        MoreThanOne(u);
        RestFound(url, s.parts, s.partStart, u, Run(url, s));
      }
    }
  }

  /** A host name before a single last character. */
  lemma OneMoreFound(url: string, p0: Parts, pos: nat, u: Url, c: char, r: (bool, Parts))
    requires u.host.Name? && u.port.None? && |Rest(u)| == 1 && c == Rest(u)[0] && (c == '/' || c == '?' || c == '#')
    requires |url| == pos + |u.host.text| + 1
    requires r == (true, p0.(host := View(pos, if c == '/' || c == ']' then |url| - 1 else |url|)))
    ensures Found(url, p0, pos, u, r)
  {
    hide Rest;
  }

  lemma MoreThanOne(u: Url)
    requires u.host.Name? && u.port.None? && |Rest(u)| >= 2
    ensures !Misread(u)
  {
  }

  lemma ValidPort(u: Url)
    requires Valid(u) && u.port.Some?
    ensures u.port.value != "" && All(IsDigit, u.port.value)
  {
  }

  // ---- a bracketed host ----

  lemma BracketBegins(url: string, s: Scan)
    requires s.state == HostStart && SchemeInside(url, s) && s.b < |url| && url[s.b] == '['
    ensures Step(url, s) == Go(s.(state := Host, b := s.b + 1, isV6 := true, partStart := s.b + 1))
  {
  }

  lemma V6CharsPass(url: string, s: Scan, k: nat)
    requires s.state == Host && SchemeInside(url, s) && s.b <= k < |url| && s.isV6
    requires forall i :: s.b <= i < k ==> IsV6Char(url[i])
    ensures forall i :: s.b <= i < k ==> Passes(url, s, i)
  {
  }

  lemma BracketEnds(url: string, s: Scan)
    requires s.state == Host && SchemeInside(url, s) && s.b < |url| && s.isV6 && url[s.b] == ']'
    ensures var parts := s.parts.(host := View(s.partStart, s.b));
      Step(url, s) ==
      if s.b + 1 == |url| then Done(true, parts)
      else if url[s.b + 1] == ':' then Go(s.(state := PortStart, b := s.b + 2, partStart := s.b + 2, parts := parts))
      else if url[s.b + 1] == '/' then Go(s.(state := Path, b := s.b + 1, partStart := s.b + 1, parts := parts))
      else if url[s.b + 1] == '?' then Go(s.(state := Query, b := s.b + 2, partStart := s.b + 2, parts := parts))
      else if url[s.b + 1] == '#' then Go(s.(state := Fragment, b := s.b + 2, partStart := s.b + 2, parts := parts))
      else Done(false, parts)
  {
  }

  lemma BracketFound(url: string, s: Scan, u: Url)
    requires Valid(u) && u.host.V6? && AtHost(url, s, u)
    requires s.parts.port.Unset? && s.parts.path.Unset?
    ensures Found(url, s.parts, s.b, u, Run(url, s))
  {
    hide Run, Inv, Step, IsV6Char, RestParts, RestAt, Rest, At, Found, Misread;
    var e := s.b + 1 + |u.host.text|;
    BracketsAt(url, s.b, u.host.text);
    StepLeads(url, s);
    BracketBegins(url, s);
    var t := s.(state := Host, b := s.b + 1, isV6 := true, partStart := s.b + 1);
    StepLeads(url, t);
    V6CharsPass(url, t, e);
    Skip(url, t, e);
    BracketThen(url, t.(b := e), s.b, u);
  }

  /** After the bracket: the port, or the rest, or a last '?' or '#'. */
  lemma BracketThen(url: string, s: Scan, pos: nat, u: Url)
    requires Inv(url, s) && s.state == Host && s.isV6 && s.partStart <= s.b < |url| && url[s.b] == ']'
    requires s.partStart == pos + 1 && s.b == s.partStart + |u.host.text|
    requires Valid(u) && u.host.V6? && s.parts.port.Unset? && s.parts.path.Unset?
    requires At(url, s.b + 1, Marked(':', u.port)) && RestAt(url, s.b + 1 + |Marked(':', u.port)|, u)
    ensures Found(url, s.parts, pos, u, Run(url, s))
  {
    hide Run, Inv, Step, RestParts, RestAt, Rest, Found, Misread, Valid, At;
    var parts := s.parts.(host := View(s.partStart, s.b));
    StepLeads(url, s);
    BracketEnds(url, s);
    RestSize(url, s.b + 1 + |Marked(':', u.port)|, u);
    if u.port.Some? {
      ValidPort(u);
      PortMarks(url, s.b + 1, u);
      PortAfterHost(url, s.(state := PortStart, b := s.b + 2, partStart := s.b + 2, parts := parts), u.port.value, u);
      PortFound(url, s.parts, pos, u, Run(url, s));
    } else {
      BracketCases(u);
      if s.b + 1 == |url| {
        NothingRests(url, s.b + 1, parts, u);
      } else {
        RestMark(url, s.b + 1, u);
        assert Step(url, s) == AfterBracket(s, parts, url[s.b + 1]);
        BracketRest(url, s, parts, u);
      }
      if Misread(u) {
        RejectedFound(url, s.parts, pos, u, Run(url, s));
      } else {
        RestFound(url, s.parts, pos, u, Run(url, s));
      }
    }
  }

  lemma BracketCases(u: Url)
    requires u.host.V6? && u.port.None?
    ensures Misread(u) <==> Rest(u) == "?" || Rest(u) == "#"
  {
  }

  /** Where the scan goes on after the bracket at `s.b`, according to the character after it. */
  function AfterBracket(s: Scan, parts: Parts, c: char): Outcome {
    if c == '/' then Go(s.(state := Path, b := s.b + 1, partStart := s.b + 1, parts := parts))
    else Go(s.(state := if c == '?' then Query else Fragment, b := s.b + 2, partStart := s.b + 2, parts := parts))
  }

  lemma BracketRest(url: string, s: Scan, parts: Parts, u: Url)
    requires Inv(url, s) && SchemeInside(url, s) && s.b + 1 < |url| && RestAt(url, s.b + 1, u)
    requires url[s.b + 1] == (if u.path != "" then '/' else if u.query.Some? then '?' else '#')
    requires LeadsTo(url, AfterBracket(s, parts, url[s.b + 1]), Run(url, s))
    ensures Run(url, s) ==
      if Rest(u) == "?" || Rest(u) == "#" then (false, parts) else (true, RestParts(parts, s.b + 1, u))
  {
    hide Run, Inv, Step, TailParts, TailAt, IsPathChar, Rest, At;
    var k := s.b + 1;
    if u.path != "" {
      PathFirst(u);
      AllAt(url, k, u.path, IsPathChar);
      AtInside(url, k, u.path);
      PathRun(url, s.(state := Path, b := k, partStart := k, parts := parts), k + |u.path|, u.query, u.fragment);
    } else {
      RestSize(url, k, u);
      RestMark(url, k, u);
      if k + 1 == |url| {
        RunAtEnd(url, s.(state := if u.query.Some? then Query else Fragment, b := k + 1, partStart := k + 1, parts := parts));
      } else {
        BracketTail(url, s, parts, u);
      }
    }
  }

  lemma PathFirst(u: Url)
    requires u.path != "" && u.path[0] == '/'
    ensures Rest(u) != "?" && Rest(u) != "#"
  {
    assert Rest(u)[0] == '/';
  }

  lemma BracketTail(url: string, s: Scan, parts: Parts, u: Url)
    requires Inv(url, s) && SchemeInside(url, s) && s.b + 2 < |url| && RestAt(url, s.b + 1, u) && u.path == ""
    requires url[s.b + 1] == if u.query.Some? then '?' else '#'
    requires LeadsTo(url, AfterBracket(s, parts, url[s.b + 1]), Run(url, s))
    ensures Run(url, s) == (true, RestParts(parts, s.b + 1, u))
  {
    hide Run, Inv, Step, IsQueryChar;
    var k := s.b + 1;
    if u.query.Some? {
      QueryRun(url, s.(state := Query, b := k + 1, partStart := k + 1, parts := parts), k, u.query.value, u.fragment);
    } else {
      MarkAt(url, k, '#', u.fragment, IsQueryChar);
      FragmentRun(url, s.(state := Fragment, b := k + 1, partStart := k + 1, parts := parts));
      OnlyFragment(parts, k, u);
    }
  }

  lemma OnlyFragment(parts: Parts, k: nat, u: Url)
    requires u.path == "" && u.query.None? && u.fragment.Some? && u.fragment.value != ""
    ensures RestParts(parts, k, u) == parts.(fragment := View(k + 1, k + 1 + |u.fragment.value|))
  {
  }

  // ---- the whole URL ----

  ghost predicate PrintedAt(url: string, l: Login, u: Url) {
    var n := |u.scheme|;
    var q := n + 3 + |PrintLogin(l)|;
    && At(url, 0, u.scheme) && At(url, n, "://") && LoginAt(url, n + 3, l)
    && At(url, q, PrintHost(u.host)) && At(url, q + |PrintHost(u.host)|, Marked(':', u.port))
    && RestAt(url, q + |PrintHost(u.host)| + |Marked(':', u.port)|, u)
  }

  lemma PrintedWith(l: Login, u: Url)
    requires Valid(u)
    ensures PrintedAt(PrintWith(l, u), l, u)
  {
    hide At, Valid, Rest, RestAt, PrintHost, Marked;
    var url, n := PrintWith(l, u), |u.scheme|;
    var q := n + 3 + |PrintLogin(l)|;
    var h, p := PrintHost(u.host), Marked(':', u.port);
    AtSelf(url);
    TwoSplits(url, 0, u.scheme, "://", PrintLogin(l) + (h + (p + Rest(u))));
    AtSplit(url, n + 3, PrintLogin(l), h + (p + Rest(u)));
    TwoSplits(url, n + 3, l.user, Marked(':', l.password), "@");
    TwoSplits(url, q, h, p, Rest(u));
    assert |url| == q + |h| + |p| + |Rest(u)|;
    RestPieces(url, q + |h| + |p|, u);
  }

  /** The slices in `p` spell exactly the login and the components of `u`. */
  ghost predicate SpellsWith(url: string, p: Parts, l: Login, u: Url) {
    && SpellsLogin(url, p, l)
    && Text(url, p.scheme) == u.scheme
    && Text(url, p.host) == u.host.text && Text(url, p.port) == OrEmpty(u.port)
    && Text(url, p.path) == u.path && Text(url, p.query) == OrEmpty(u.query)
    && Text(url, p.fragment) == OrEmpty(u.fragment)
  }

  ghost predicate SpellsLogin(url: string, p: Parts, l: Login) {
    && Chained(p, |url|)
    && Text(url, p.username) == l.user
    && (match l.password case None => p.password.Unset? case Some(w) => p.password.View? && Text(url, p.password) == w)
  }

  lemma FrontWith(url: string, l: Login, u: Url)
    requires Valid(u) && ValidLogin(l) && PrintedAt(url, l, u)
    ensures var n := |u.scheme|;
      && 1 <= n && n + 3 < |url| && IsAlpha(url[0]) && (forall i :: 0 <= i < n ==> IsSchemeChar(url[i]))
      && url[n] == ':' && url[n + 1] == '/' && url[n + 2] == '/' && url[n + 3] != '/'
  {
    hide IsSchemeChar, RestAt, PrintHost;
    var n := |u.scheme|;
    AllAt(url, 0, u.scheme, IsSchemeChar);
    assert url[0 + 0] == u.scheme[0];
    assert url[n + 0] == "://"[0] && url[n + 1] == "://"[1] && url[n + 2] == "://"[2];
    UserMarks(url, n + 3, l);
  }

  lemma LoginTexts(url: string, pos: nat, l: Login, p0: Parts)
    requires LoginAt(url, pos, l)
    ensures var p := LoginParts(p0, pos, l);
      && (p.username.View? ==> p.username.from <= p.username.to <= |url|) && Text(url, p.username) == l.user
      && (p.username.View?)
      && (match l.password
          case None => p.password == p0.password
          case Some(w) => p.password.View? && p.password.from <= p.password.to <= |url| && Text(url, p.password) == w)
  {
    hide At;
    AtInside(url, pos, l.user);
    TextAt(url, pos, l.user);
    MarkedSpells(url, pos + |l.user|, ':', l.password);
  }

  /** The fields that the scan of host, port and rest leaves. */
  lemma FieldsWith(p0: Parts, pos: nat, r: nat, u: Url)
    requires r == pos + |PrintHost(u.host)| + |Marked(':', u.port)|
    requires p0.host.Unset? && p0.port.Unset? && p0.path.Unset? && p0.query.Unset? && p0.fragment.Unset?
    ensures var p := RestParts(AuthorityParts(p0, pos, u), r, u);
      var h, q := pos + |PrintHost(u.host)|, r + |u.path|;
      var e := q + |Marked('?', u.query)|;
      && p.scheme == p0.scheme && p.username == p0.username && p.password == p0.password
      && p.host == (if u.host.Name? then View(pos, h) else View(pos + 1, h - 1))
      && p.path == (if u.path == "" then Unset else View(r, q))
      && IsMarkedView(p.port, h, u.port) && IsMarkedView(p.query, q, u.query) && IsMarkedView(p.fragment, e, u.fragment)
  {
  }

  lemma HostWith(url: string, pos: nat, h: HostText, v: View)
    requires At(url, pos, PrintHost(h))
    requires v == if h.Name? then View(pos, pos + |PrintHost(h)|) else View(pos + 1, pos + |PrintHost(h)| - 1)
    ensures (v.View? ==> v.from <= v.to <= |url|) && Text(url, v) == h.text
  {
    hide At;
    HostSpells(url, pos, h);
  }

  lemma SpelledWith(url: string, l: Login, u: Url, p0: Parts, p: Parts)
    requires Valid(u) && PrintedAt(url, l, u) && Chained(p, |url|)
    requires var n := |u.scheme|;
      var q := n + 3 + |PrintLogin(l)|;
      && p0 == LoginParts(NO_PARTS.(scheme := View(0, n)), n + 3, l)
      && p == RestParts(AuthorityParts(p0, q, u), q + |PrintHost(u.host)| + |Marked(':', u.port)|, u)
    ensures SpellsWith(url, p, l, u)
  {
    hide RestParts, AuthorityParts, RestAt, At, Text, Chained, PrintHost, Marked, IsMarkedView, OrEmpty, LoginAt, PrintLogin;
    var n, h := |u.scheme|, |PrintHost(u.host)|;
    var q := n + 3 + |PrintLogin(l)|;
    var r := q + h + |Marked(':', u.port)|;
    FieldsWith(p0, q, r, u);
    LoginTexts(url, n + 3, l, NO_PARTS.(scheme := View(0, n)));
    TextAt(url, 0, u.scheme);
    AtInside(url, 0, u.scheme);
    TextOf(url, p.scheme, 0, u.scheme);
    HostWith(url, q, u.host, p.host);
    MarkedSpells(url, q + h, ':', u.port);
    MarkedText(url, p.port, q + h, u.port);
    RestSpells(url, r, u, p);
  }

  /** For every URL with user information built from the parser's own character classes, the user name
      and the password are found exactly; and the URL is accepted and all its components are found
      exactly if and only if it is not one of the misread ones. */
  lemma ParsePrintExactly(l: Login, u: Url)
    requires Valid(u) && ValidLogin(l)
    ensures var url := PrintWith(l, u);
      && SpellsLogin(url, Parsed(url).1, l)
      && (Parsed(url).0 && SpellsWith(url, Parsed(url).1, l, u) <==> !Misread(u))
  {
    hide Valid, ValidLogin, Run, Parsed, Inv, PrintWith, RestAt, At, RestParts, AuthorityParts, SpellsWith, SpellsLogin,
      AuthorityStart, Found, Misread, LoginAt, PrintLogin;
    var url, n := PrintWith(l, u), |u.scheme|;
    PrintedWith(l, u);
    FrontWith(url, l, u);
    SchemeRun(url, n);
    LoginBegins(url, n);
    StartFields(n);
    var t := LoginRun(url, AuthorityStart(n), l);
    LoginFields(NO_PARTS.(scheme := View(0, n)), n + 3, l);
    if u.host.Name? {
      NameFound(url, t, u);
    } else {
      BracketFound(url, t, u);
    }
    ParsedChained(url);
    if Misread(u) {
      MisreadFound(url, l, u, t, Parsed(url));
    } else {
      FoundWell(url, t, u, Parsed(url));
      SpelledWith(url, l, u, t.parts, Parsed(url).1);
      SpellsBoth(url, Parsed(url).1, l, u);
    }
  }

  lemma LoginBegins(url: string, n: nat)
    ensures var s := AuthorityStart(n); s.state == Probe && NoProbe(s) && s.b == s.partStart && !s.isV6
  {
  }

  lemma LoginFields(p: Parts, pos: nat, l: Login)
    requires p == NO_PARTS.(scheme := p.scheme)
    ensures var p' := LoginParts(p, pos, l); p'.port.Unset? && p'.path.Unset?
  {
  }

  lemma FoundWell(url: string, s: Scan, u: Url, r: (bool, Parts))
    requires Found(url, s.parts, s.b, u, r) && !Misread(u)
    ensures r == (true, RestParts(AuthorityParts(s.parts, s.b, u), s.b + |PrintHost(u.host)| + |Marked(':', u.port)|, u))
  {
  }

  lemma SpellsBoth(url: string, p: Parts, l: Login, u: Url)
    requires SpellsWith(url, p, l, u)
    ensures SpellsLogin(url, p, l)
  {
  }

  lemma MisreadFound(url: string, l: Login, u: Url, s: Scan, r: (bool, Parts))
    requires PrintedAt(url, l, u) && Chained(r.1, |url|) && Misread(u) && Found(url, s.parts, s.b, u, r)
    requires s.parts == LoginParts(NO_PARTS.(scheme := View(0, |u.scheme|)), |u.scheme| + 3, l)
    ensures SpellsLogin(url, r.1, l)
    ensures !(r.0 && SpellsWith(url, r.1, l, u))
  {
    hide At, RestAt, RestParts, AuthorityParts, LoginAt;
    LoginTexts(url, |u.scheme| + 3, l, NO_PARTS.(scheme := View(0, |u.scheme|)));
    if r.0 {
      MisreadParts(url, s, u, r);
    }
  }

  lemma MisreadParts(url: string, s: Scan, u: Url, r: (bool, Parts))
    requires Misread(u) && Found(url, s.parts, s.b, u, r) && r.0 && Chained(r.1, |url|) && s.parts.path.Unset?
    ensures Text(url, r.1.path) != u.path || Text(url, r.1.host) != u.host.text
  {
    hide RestParts, AuthorityParts;
    if Rest(u) == "/" {
      SlashIsPath(u);
    }
  }

  lemma SlashIsPath(u: Url)
    requires Rest(u) == "/"
    ensures u.path == "/"
  {
    TailFirst(u);
    PathOfRest(u);
  }

  lemma TailFirst(u: Url)
    ensures u.path == "" ==> Rest(u) == "" || Rest(u)[0] != '/'
  {
    if u.path == "" && u.query.Some? {
      assert Rest(u)[0] == '?';
    } else if u.path == "" && u.fragment.Some? {
      assert Rest(u)[0] == '#';
    }
  }

  lemma PathOfRest(u: Url)
    ensures |u.path| <= |Rest(u)| && Rest(u)[..|u.path|] == u.path
  {
  }
}
