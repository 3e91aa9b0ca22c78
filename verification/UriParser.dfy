/** `util::uri::parse`: a scanner of thirteen states that sometimes steps back one character. */
module UriParser {
  import opened UriChars

  /** A `string_view` into the parsed text; `Unset` is the default-constructed one. */
  datatype View = Unset | View(from: nat, to: nat) {
    predicate Empty() { Unset? || from == to }
  }

  datatype Parts = Parts(scheme: View, username: View, password: View, host: View,
                         port: View, path: View, query: View, fragment: View)

  const NO_PARTS := Parts(Unset, Unset, Unset, Unset, Unset, Unset, Unset, Unset)

  datatype State =
    | SchemeStart | Scheme | SlashStart | Slash | Urn | Probe | HostStart | Host
    | PortStart | Port | Path | Query | Fragment

  datatype Pointer = Null | To(pos: nat)

  /** The local variables of the loop. */
  datatype Scan = Scan(state: State, b: nat, partStart: nat, v6Start: Pointer, v6End: Pointer,
                       isV6: bool, probe: View, parts: Parts)

  const START := Scan(SchemeStart, 0, 0, Null, Null, false, Unset, NO_PARTS)

  datatype Outcome = Go(next: Scan) | Done(ok: bool, parts: Parts)

  function Rank(q: State): nat {
    match q
    case SchemeStart => 0 case Scheme => 1 case SlashStart => 2 case Slash => 3 case Urn => 4
    case Probe => 5 case HostStart => 6 case Host => 7 case PortStart => 8 case Port => 9
    case Path => 10 case Query => 11 case Fragment => 12
  }

  function Lower(c: char): char {
    if 'A' <= c <= 'Z' then c - 'A' + 'a' else c
  }

  predicate EqualsIgnoringCase(a: string, b: string) {
    |a| == |b| && forall i :: 0 <= i < |a| ==> Lower(a[i]) == Lower(b[i])
  }

  function Text(url: string, v: View): string
    requires v.View? ==> v.from <= v.to <= |url|
  {
    if v.Unset? then "" else url[v.from..v.to]
  }

  // ---- one turn of the loop, state by state; `b` is already past the character `c` ----

  predicate IsSchemeChar(c: char) {
    IsAlpha(c) || IsDigit(c) || c == '+' || c == '-' || c == '.'
  }

  predicate IsNameChar(c: char) {
    IsUnreserved(c) || IsSubdelim(c) || c == '%'
  }

  predicate IsV6Char(c: char) {
    IsDigit(c) || 'a' <= c <= 'f' || 'A' <= c <= 'F' || c == ':' || c == '.'
  }

  predicate IsPathChar(c: char) {
    IsUnreserved(c) || IsSubdelim(c) || c == '%' || c == '/' || c == '&' || c == ':'
  }

  predicate IsQueryChar(c: char) {
    IsHsegment(c) || IsSubdelim(c) || c == '/' || c == '?'
  }

  /** After a '?' or '#' that ends a component: finished at the end of the text, else the next part. */
  function Enter(url: string, s: Scan, parts: Parts, b: nat, q: State): Outcome {
    if b == |url| then Done(true, parts)
    else Go(s.(state := q, b := b, partStart := b, parts := parts))
  }

  /** Step back over the '/' so that it begins the path. */
  function EnterPath(s: Scan, parts: Parts, b: nat): Outcome
    requires b >= 1
  {
    Go(s.(state := Path, b := b - 1, partStart := b - 1, parts := parts))
  }

  function StepSlashStart(url: string, s: Scan, c: char, b: nat): Outcome
    requires 1 <= b <= |url|
    requires s.parts.scheme.View? ==> s.parts.scheme.from <= s.parts.scheme.to <= |url|
  {
    if c == '/' then
      var skip := EqualsIgnoringCase(Text(url, s.parts.scheme), "file")
                  && b + 1 < |url| && url[b] == '/' && url[b + 1] == '/';
      Go(s.(state := Slash, b := if skip then b + 1 else b))
    else
      Go(s.(state := Urn, b := b - 1, partStart := b - 1))
  }

  function StepUrn(url: string, s: Scan, c: char, b: nat): Outcome
    requires 1 <= b
  {
    if b == |url| then Done(true, s.parts.(path := View(s.partStart, b)))
    else if c == '?' then
      Go(s.(state := Query, b := b, partStart := b, parts := s.parts.(path := View(s.partStart, b - 1))))
    else Go(s.(b := b))
  }

  /** What a '[' or ']' does to the search for an IPv6 address. */
  function Brackets(s: Scan, c: char, b: nat): Scan
    requires 1 <= b
  {
    if c == '[' then
      if s.v6Start.To? then s.(isV6 := false) else s.(isV6 := true, v6Start := To(b))
    else if c == ']' then
      if s.isV6 && s.v6End.Null? then
        s.(v6End := To(b - 1), probe := if s.probe.Empty() then s.probe else Unset)
      else s.(isV6 := false)
    else s
  }

  datatype Authority = Malformed | Authority(parts: Parts)

  /** Host and port of an authority that ends at `end`. */
  function SetHost(s: Scan, end: nat): Authority {
    var port := if s.probe.Empty() then s.parts.port else View(s.probe.to + 1, end);
    if s.isV6 then
      if s.v6Start.Null? || s.v6End.Null? || s.v6Start == s.v6End then Malformed
      else Authority(s.parts.(host := View(s.v6Start.pos, s.v6End.pos), port := port))
    else if s.v6Start.To? || s.v6End.To? then Malformed
    else Authority(s.parts.(host := if s.probe.Empty() then View(s.partStart, end) else s.probe, port := port))
  }

  function StepProbe(url: string, s0: Scan, c: char, b: nat): Outcome
    requires 1 <= b <= |url|
  {
    var s := Brackets(s0, c, b);
    if c == '@' then
      var parts := if s.probe.Empty() then s.parts.(username := View(s.partStart, b - 1))
                   else s.parts.(password := View(s.probe.to + 1, b - 1), username := s.probe);
      Go(s.(state := HostStart, b := b, partStart := b, isV6 := false, parts := parts))
    else if c == ':' then
      Go(s.(b := b, probe := if s.probe.Empty() then View(s.partStart, b - 1) else s.probe))
    else if c == '/' || c == '?' || c == '#' then
      match SetHost(s, b - 1)
      case Malformed => Done(false, s.parts)
      case Authority(parts) =>
        if c == '/' then EnterPath(s, parts, b)
        else Enter(url, s, parts, b, if c == '?' then Query else Fragment)
    else if b == |url| then
      match SetHost(s, b)
      case Malformed => Done(false, s.parts)
      case Authority(parts) => Done(true, parts)
    else
      var t := s.(b := b, isV6 := s.isV6 && (IsV6Char(c) || c == ']' || c == '['));
      if IsNameChar(c) || c == ' ' || c == '[' || c == ']' then Go(t) else Done(false, s.parts)
  }

  function StepHostStart(s: Scan, c: char, b: nat): Outcome {
    if IsNameChar(c) || c == '[' then
      if c == '[' then Go(s.(state := Host, b := b, isV6 := true, partStart := b)) else Go(s.(state := Host, b := b))
    else Done(false, s.parts)
  }

  function StepHost(url: string, s: Scan, c: char, b: nat): Outcome
    requires 1 <= b <= |url|
  {
    var before := s.parts.(host := View(s.partStart, b - 1));
    if b == |url| then
      if s.isV6 && c == '/' then Done(false, s.parts)
      else if c == '/' || c == ']' then Done(true, before)
      else Done(true, s.parts.(host := View(s.partStart, b)))
    else if s.isV6 && c == ']' then
      if url[b] == ':' then Go(s.(state := PortStart, b := b + 1, partStart := b + 1, parts := before))
      else if url[b] == '/' then Go(s.(state := Path, b := b, partStart := b, parts := before))
      else if url[b] == '?' then Go(s.(state := Query, b := b + 1, partStart := b + 1, parts := before))
      else if url[b] == '#' then Go(s.(state := Fragment, b := b + 1, partStart := b + 1, parts := before))
      else Done(false, before)
    else if s.isV6 && c == '/' then Done(false, s.parts)
    else if !s.isV6 && c == ':' then
      Go(s.(state := PortStart, b := b, partStart := b, parts := before))
    else if c == '/' then EnterPath(s, before, b)
    else if IsNameChar(c) || c == ':' || c == ' ' then Go(s.(b := b))
    else if c == '?' then Enter(url, s, before, b, Query)
    else if c == '#' then Enter(url, s, before, b, Fragment)
    else Done(false, s.parts)
  }

  function StepPort(url: string, s: Scan, c: char, b: nat): Outcome
    requires 1 <= b <= |url|
  {
    var before := s.parts.(port := View(s.partStart, b - 1));
    if c == '/' then EnterPath(s, before, b)
    else if c == '?' then Enter(url, s, before, b, Query)
    else if c == '#' then Enter(url, s, before, b, Fragment)
    else if b == |url| then Done(true, s.parts.(port := View(s.partStart, b)))
    else if IsDigit(c) then Go(s.(b := b))
    else Done(false, s.parts)
  }

  function StepPath(url: string, s: Scan, c: char, b: nat): Outcome
    requires 1 <= b <= |url|
  {
    var before := s.parts.(path := View(s.partStart, b - 1));
    if c == '?' then Enter(url, s, before, b, Query)
    else if c == '#' then Enter(url, s, before, b, Fragment)
    else if b == |url| then Done(true, s.parts.(path := View(s.partStart, b)))
    else if IsPathChar(c) then Go(s.(b := b))
    else Done(false, s.parts)
  }

  function StepQuery(url: string, s: Scan, c: char, b: nat): Outcome
    requires 1 <= b <= |url|
  {
    if c == '#' then Enter(url, s, s.parts.(query := View(s.partStart, b - 1)), b, Fragment)
    else if b == |url| then Done(true, s.parts.(query := View(s.partStart, b)))
    else if IsQueryChar(c) then Go(s.(b := b))
    else Done(false, s.parts)
  }

  function StepFragment(url: string, s: Scan, c: char, b: nat): Outcome
    requires 1 <= b <= |url|
  {
    if b == |url| then Done(true, s.parts.(fragment := View(s.partStart, b)))
    else if IsQueryChar(c) then Go(s.(b := b))
    else Done(false, s.parts)
  }

  /** One turn of the loop. */
  function Step(url: string, s: Scan): Outcome
    requires s.b < |url|
    requires s.parts.scheme.View? ==> s.parts.scheme.from <= s.parts.scheme.to <= |url|
  {
    var c, b := url[s.b], s.b + 1;
    match s.state
    case SchemeStart => if IsAlpha(c) then Go(s.(state := Scheme, b := b)) else Done(false, s.parts)
    case Scheme =>
      if IsSchemeChar(c) then Go(s.(b := b))
      else if c == ':' then
        Go(s.(state := SlashStart, b := b, parts := s.parts.(scheme := View(s.partStart, b - 1))))
      else Done(false, s.parts)
    case SlashStart => StepSlashStart(url, s, c, b)
    case Slash => if c == '/' then Go(s.(state := Probe, b := b, partStart := b)) else Done(false, s.parts)
    case Urn => StepUrn(url, s, c, b)
    case Probe => StepProbe(url, s, c, b)
    case HostStart => StepHostStart(s, c, b)
    case Host => StepHost(url, s, c, b)
    case PortStart => if IsDigit(c) then Go(s.(state := Port, b := b)) else Done(false, s.parts)
    case Port => StepPort(url, s, c, b)
    case Path => StepPath(url, s, c, b)
    case Query => StepQuery(url, s, c, b)
    case Fragment => StepFragment(url, s, c, b)
  }

  // ---- what every turn keeps: the parts found so far lie in order before the current one ----

  ghost predicate Fits(v: View, low: nat) {
    v.View? ==> low <= v.from <= v.to
  }

  ghost function End(v: View, low: nat): nat {
    if v.View? then v.to else low
  }

  /** Each component that is set begins where the previous one ends, or later. */
  ghost predicate Chained(p: Parts, limit: nat) {
    var e1 := End(p.scheme, 0);
    var e2 := End(p.username, e1);
    var e3 := End(p.password, e2);
    var e4 := End(p.host, e3);
    var e5 := End(p.port, e4);
    var e6 := End(p.path, e5);
    var e7 := End(p.query, e6);
    && Fits(p.scheme, 0) && Fits(p.username, e1) && Fits(p.password, e2) && Fits(p.host, e3)
    && Fits(p.port, e4) && Fits(p.path, e5) && Fits(p.query, e6) && Fits(p.fragment, e7)
    && End(p.fragment, e7) <= limit
  }

  /** The components are chained and end by `limit`, and those from the `k`-th on are unset. */
  ghost predicate Laid(p: Parts, k: nat, limit: nat) {
    && Chained(p, limit)
    && (k <= 7 ==> p.fragment.Unset?) && (k <= 6 ==> p.query.Unset?) && (k <= 5 ==> p.path.Unset?)
    && (k <= 4 ==> p.port.Unset?) && (k <= 3 ==> p.host.Unset?) && (k <= 2 ==> p.password.Unset?)
    && (k <= 1 ==> p.username.Unset?) && (k <= 0 ==> p.scheme.Unset?)
  }

  /** The probe for user information or host name, and the brackets seen, are inside the authority. */
  ghost predicate ProbeOk(s: Scan) {
    && (s.probe.View? ==> s.probe.from == s.partStart <= s.probe.to < s.b)
    && (s.v6Start.To? ==> s.partStart < s.v6Start.pos <= s.b)
    && (s.isV6 ==> s.v6Start.To?)
    && (s.v6End.To? ==> s.v6Start.To? && s.v6Start.pos <= s.v6End.pos < s.b
                        && (s.probe.Empty() || s.v6End.pos < s.probe.to))
  }

  ghost predicate NoProbe(s: Scan) {
    s.v6Start.Null? && s.v6End.Null? && !s.isV6 && s.probe.Unset?
  }

  ghost predicate Inv(url: string, s: Scan) {
    && s.partStart <= s.b <= |url|
    && match s.state
       case SchemeStart => s == START
       case Scheme => Laid(s.parts, 0, 0) && NoProbe(s)
       case SlashStart => Laid(s.parts, 1, s.b) && NoProbe(s)
       case Slash => Laid(s.parts, 1, s.b) && NoProbe(s)
       case Urn => Laid(s.parts, 1, s.partStart)
       case Probe => Laid(s.parts, 1, s.partStart) && ProbeOk(s)
       case HostStart => Laid(s.parts, 3, s.partStart)
       case Host => Laid(s.parts, 3, s.partStart)
       case PortStart => Laid(s.parts, 4, s.partStart)
       case Port => Laid(s.parts, 4, s.partStart)
       case Path => Laid(s.parts, 5, s.partStart)
       case Query => Laid(s.parts, 6, s.partStart)
       case Fragment => Laid(s.parts, 7, s.partStart)
  }

  /** The measure of the loop: states only advance, and within a state so does the cursor. */
  ghost predicate Advances(s: Scan, t: Scan) {
    Rank(s.state) < Rank(t.state) || (s.state == t.state && s.b < t.b)
  }

  ghost predicate Sound(url: string, s: Scan, r: Outcome) {
    match r
    case Go(t) => Inv(url, t) && Advances(s, t)
    case Done(ok, parts) => Laid(parts, 8, |url|)
  }

  lemma BracketsKeepProbe(s: Scan, c: char, b: nat)
    requires s.partStart <= s.b && b == s.b + 1 && ProbeOk(s)
    ensures var t := Brackets(s, c, b);
            && ProbeOk(t.(b := b)) && (c != '[' && c != ']' ==> t == s)
            && t == s.(v6Start := t.v6Start, v6End := t.v6End, isV6 := t.isV6, probe := t.probe)
  {
  }

  lemma HostIsLaid(s: Scan, end: nat)
    requires s.partStart <= end && ProbeOk(s.(b := end)) && Laid(s.parts, 1, s.partStart)
    ensures SetHost(s, end).Authority? ==> Laid(SetHost(s, end).parts, 5, end)
  {
  }

  // ---- setting the next component keeps the parts laid out ----

  lemma LaidLater(p: Parts, k: nat, limit: nat)
    requires Laid(p, k, limit)
    ensures forall k': nat, limit': nat :: k <= k' && limit <= limit' ==> Laid(p, k', limit')
  {
  }

  lemma SchemeSet(p: Parts, to: nat)
    requires Laid(p, 0, 0)
    ensures forall from: nat, k: nat, limit: nat :: from <= to <= limit && 1 <= k ==> Laid(p.(scheme := View(from, to)), k, limit)
  {
  }

  lemma HostSet(p: Parts, from: nat, to: nat)
    requires Laid(p, 3, from) && from <= to
    ensures forall k: nat, limit: nat :: 4 <= k && to <= limit ==> Laid(p.(host := View(from, to)), k, limit)
  {
  }

  lemma PortSet(p: Parts, from: nat, to: nat)
    requires Laid(p, 4, from) && from <= to
    ensures forall k: nat, limit: nat :: 5 <= k && to <= limit ==> Laid(p.(port := View(from, to)), k, limit)
  {
  }

  lemma PathSet(p: Parts, from: nat, to: nat)
    requires Laid(p, 5, from) && from <= to
    ensures forall k: nat, limit: nat :: 6 <= k && to <= limit ==> Laid(p.(path := View(from, to)), k, limit)
  {
  }

  lemma QuerySet(p: Parts, from: nat, to: nat)
    requires Laid(p, 6, from) && from <= to
    ensures forall k: nat, limit: nat :: 7 <= k && to <= limit ==> Laid(p.(query := View(from, to)), k, limit)
  {
  }

  lemma FragmentSet(p: Parts, from: nat, to: nat)
    requires Laid(p, 7, from) && from <= to
    ensures forall k: nat, limit: nat :: 8 <= k && to <= limit ==> Laid(p.(fragment := View(from, to)), k, limit)
  {
  }

  lemma UserSet(s: Scan, end: nat)
    requires s.partStart <= end && ProbeOk(s.(b := end)) && Laid(s.parts, 1, s.partStart)
    ensures Laid(s.parts.(username := View(s.partStart, end)), 3, end + 1)
    ensures !s.probe.Empty() ==> Laid(s.parts.(password := View(s.probe.to + 1, end), username := s.probe), 3, end + 1)
  {
  }

  // ---- each turn is sound ----

  lemma ProbeUserIsSound(url: string, s: Scan)
    requires Inv(url, s) && s.b < |url| && s.state == Probe
    ensures Sound(url, s, StepProbe(url, s, '@', s.b + 1))
  {
    UserSet(s, s.b);
    hide Laid, ProbeOk;
  }

  lemma ProbeEndIsSound(url: string, s: Scan, c: char)
    requires Inv(url, s) && s.b < |url| && s.state == Probe && (c == '/' || c == '?' || c == '#')
    ensures Sound(url, s, StepProbe(url, s, c, s.b + 1))
  {
    hide Laid, ProbeOk, SetHost;
    assert s.(b := s.b) == s;
    LaidLater(s.parts, 1, s.partStart);
    HostIsLaid(s, s.b);
    if SetHost(s, s.b).Authority? {
      LaidLater(SetHost(s, s.b).parts, 5, s.b);
    }
  }

  lemma ProbeGoesOnIsSound(url: string, s: Scan, c: char)
    requires Inv(url, s) && s.b < |url| && s.state == Probe && !(c == '@' || c == '/' || c == '?' || c == '#')
    ensures Sound(url, s, StepProbe(url, s, c, s.b + 1))
  {
    hide Laid, SetHost, Brackets, IsNameChar, IsV6Char;
    var b := s.b + 1;
    var t := Brackets(s, c, b);
    BracketsKeepProbe(s, c, b);
    LaidLater(s.parts, 1, s.partStart);
    HostIsLaid(t, b);
    if SetHost(t, b).Authority? {
      LaidLater(SetHost(t, b).parts, 5, b);
    }
  }

  lemma HostStepIsSound(url: string, s: Scan, c: char)
    requires Inv(url, s) && s.b < |url| && s.state == Host
    ensures Sound(url, s, StepHost(url, s, c, s.b + 1))
  {
    hide Laid, IsNameChar;
    LaidLater(s.parts, 3, s.partStart);
    HostSet(s.parts, s.partStart, s.b);
    HostSet(s.parts, s.partStart, s.b + 1);
  }

  lemma PortStepIsSound(url: string, s: Scan, c: char)
    requires Inv(url, s) && s.b < |url| && s.state == Port
    ensures Sound(url, s, StepPort(url, s, c, s.b + 1))
  {
    hide Laid, IsDigit;
    LaidLater(s.parts, 4, s.partStart);
    PortSet(s.parts, s.partStart, s.b);
    PortSet(s.parts, s.partStart, s.b + 1);
  }

  lemma PathStepIsSound(url: string, s: Scan, c: char)
    requires Inv(url, s) && s.b < |url| && s.state == Path
    ensures Sound(url, s, StepPath(url, s, c, s.b + 1))
  {
    hide Laid, IsPathChar;
    LaidLater(s.parts, 5, s.partStart);
    PathSet(s.parts, s.partStart, s.b);
    PathSet(s.parts, s.partStart, s.b + 1);
  }

  lemma QueryStepIsSound(url: string, s: Scan, c: char)
    requires Inv(url, s) && s.b < |url| && s.state == Query
    ensures Sound(url, s, StepQuery(url, s, c, s.b + 1))
  {
    hide Laid, IsQueryChar;
    LaidLater(s.parts, 6, s.partStart);
    QuerySet(s.parts, s.partStart, s.b);
    QuerySet(s.parts, s.partStart, s.b + 1);
  }

  lemma FragmentStepIsSound(url: string, s: Scan, c: char)
    requires Inv(url, s) && s.b < |url| && s.state == Fragment
    ensures Sound(url, s, StepFragment(url, s, c, s.b + 1))
  {
    hide Laid, IsQueryChar;
    LaidLater(s.parts, 7, s.partStart);
    FragmentSet(s.parts, s.partStart, s.b + 1);
  }

  lemma UrnStepIsSound(url: string, s: Scan, c: char)
    requires Inv(url, s) && s.b < |url| && s.state == Urn
    ensures Sound(url, s, StepUrn(url, s, c, s.b + 1))
  {
    hide Laid;
    LaidLater(s.parts, 1, s.partStart);
    PathSet(s.parts, s.partStart, s.b);
    PathSet(s.parts, s.partStart, s.b + 1);
  }

  lemma SchemeInBounds(p: Parts, k: nat, limit: nat)
    requires Laid(p, k, limit)
    ensures p.scheme.View? ==> p.scheme.from <= p.scheme.to <= limit
  {
  }

  lemma InvHasParts(url: string, s: Scan)
    requires Inv(url, s)
    ensures Laid(s.parts, 8, |url|)
  {
    hide Laid;
    if s.state == SchemeStart || s.state == Scheme {
      NothingLaid(|url|);
      LaidLater(s.parts, 0, 0);
    } else if s.state == SlashStart || s.state == Slash {
      LaidLater(s.parts, 1, s.b);
    } else {
      var k := [1, 1, 3, 3, 4, 4, 5, 6, 7][Rank(s.state) - 4];
      LaidLater(s.parts, k, s.partStart);
    }
  }

  lemma NothingLaid(limit: nat)
    ensures Laid(NO_PARTS, 0, 0)
  {
  }

  lemma StepIsSound(url: string, s: Scan)
    requires Inv(url, s) && s.b < |url|
    ensures s.parts.scheme.View? ==> s.parts.scheme.from <= s.parts.scheme.to <= |url|
    ensures Sound(url, s, Step(url, s))
  {
    hide StepProbe, StepHost, StepPort, StepPath, StepQuery, StepFragment, StepUrn, Laid, ProbeOk,
      IsNameChar, IsSchemeChar, EqualsIgnoringCase, Text, IsAlpha, IsDigit;
    var c := url[s.b];
    InvHasParts(url, s);
    SchemeInBounds(s.parts, 8, |url|);
    match s.state
    case Probe =>
      if c == '@' {
        ProbeUserIsSound(url, s);
      } else if c == '/' || c == '?' || c == '#' {
        ProbeEndIsSound(url, s, c);
      } else {
        ProbeGoesOnIsSound(url, s, c);
      }
    case Host => HostStepIsSound(url, s, c);
    case Port => PortStepIsSound(url, s, c);
    case Path => PathStepIsSound(url, s, c);
    case Query => QueryStepIsSound(url, s, c);
    case Fragment => FragmentStepIsSound(url, s, c);
    case Urn => UrnStepIsSound(url, s, c);
    case SchemeStart => NothingLaid(0);
    case Scheme => SchemeSet(s.parts, s.b);
    case Slash => FreshProbe(s);
      LaidLater(s.parts, 1, s.b);
    case SlashStart => LaidLater(s.parts, 1, s.b);
    case HostStart => LaidLater(s.parts, 3, s.partStart);
    case PortStart =>
  }

  lemma FreshProbe(s: Scan)
    requires NoProbe(s)
    ensures forall b: nat :: ProbeOk(s.(state := Probe, b := b, partStart := b))
  {
  }

  // ---- the whole scan ----

  /** The loop from `s` on: whether the text is accepted, and the components found. */
  function Run(url: string, s: Scan): (r: (bool, Parts))
    requires Inv(url, s)
    ensures Laid(r.1, 8, |url|)
    decreases 12 - Rank(s.state), |url| - s.b
  {
    InvHasParts(url, s);
    if s.b == |url| then (false, s.parts)
    else
      StepIsSound(url, s);
      match Step(url, s)
      case Done(ok, parts) => (ok, parts)
      case Go(t) => Run(url, t)
  }

  function Parsed(url: string): (r: (bool, Parts))
    ensures Laid(r.1, 8, |url|)
  {
    NothingLaid(0);
    Run(url, START)
  }

  /** The components in the order of the text. */
  function Component(p: Parts, i: nat): View {
    match i
    case 0 => p.scheme case 1 => p.username case 2 => p.password case 3 => p.host
    case 4 => p.port case 5 => p.path case 6 => p.query case _ => p.fragment
  }

  /** A member of the class: a view and the text it points into. */
  datatype Slot = Slot(text: string, view: View)

  class Uri {
    var slots: seq<Slot>    // in the order of Component

    ghost predicate Valid()
      reads this
    {
      |slots| == 8 && forall i :: 0 <= i < 8 && slots[i].view.View? ==> slots[i].view.from <= slots[i].view.to <= |slots[i].text|
    }

    constructor ()
      ensures Valid() && forall i :: 0 <= i < 8 ==> slots[i].view.Unset?
    {
      slots := seq(8, _ => Slot("", Unset));
    }

    /** Scans the text. The loop ends although it may step back, reads only inside the text, and
        every component it sets is a slice of it, in order and disjoint from the others. Components
        that the text does not set keep what an earlier parse left in them. */
    method Parse(url: string) returns (ok: bool)
      requires Valid()
      modifies this
      ensures Valid() && ok == Parsed(url).0
      ensures forall i :: 0 <= i < 8 ==>
        slots[i] == if Component(Parsed(url).1, i).View? then Slot(url, Component(Parsed(url).1, i)) else old(slots[i])
    {
      hide Step, Laid;
      var s := START;
      NothingLaid(0);
      while s.b != |url|
        invariant Inv(url, s) && Run(url, s) == Parsed(url) && slots == old(slots)
        decreases 12 - Rank(s.state), |url| - s.b
      {
        StepIsSound(url, s);
        var outcome := Step(url, s);
        if outcome.Done? {
          Keep(url, outcome.parts);
          return outcome.ok;
        }
        s := outcome.next;
      }
      Keep(url, s.parts);
      return false;
    }

    /** The members that the scan assigned. */
    method Keep(url: string, parts: Parts)
      requires Valid() && Laid(parts, 8, |url|)
      modifies this
      ensures Valid()
      ensures forall i :: 0 <= i < 8 ==>
        slots[i] == if Component(parts, i).View? then Slot(url, Component(parts, i)) else old(slots[i])
    {
      hide Laid, Component;
      var before := slots;
      for i := 0 to 8
        invariant |slots| == 8 && forall j :: i <= j < 8 ==> slots[j] == before[j]
        invariant forall j :: 0 <= j < i ==>
          slots[j] == if Component(parts, j).View? then Slot(url, Component(parts, j)) else before[j]
      {
        if Component(parts, i).View? {
          slots := slots[i := Slot(url, Component(parts, i))];
        }
      }
      forall i | 0 <= i < 8 && Component(parts, i).View?
        ensures Component(parts, i).from <= Component(parts, i).to <= |url|
      {
        PartInside(parts, |url|, i);
      }
    }
  }

  /** Where the components before the `i`-th end. */
  ghost function Floor(p: Parts, i: nat): nat {
    if i == 0 then 0 else End(Component(p, i - 1), Floor(p, i - 1))
  }

  lemma ChainedFloors(p: Parts, limit: nat, i: nat)
    requires Chained(p, limit) && i < 8
    ensures Fits(Component(p, i), Floor(p, i)) && Floor(p, 8) <= limit
  {
    hide Floor;
    FloorOfNone(p, 0);
    FloorStep(p, 0);
    FloorStep(p, 1);
    FloorStep(p, 2);
    FloorStep(p, 3);
    FloorStep(p, 4);
    FloorStep(p, 5);
    FloorStep(p, 6);
    FloorStep(p, 7);
  }

  lemma {:induction false} FloorsRise(p: Parts, limit: nat, i: nat, j: nat)
    requires Chained(p, limit) && i <= j <= 8
    ensures Floor(p, i) <= Floor(p, j)
  {
    hide Chained;
    if i < j {
      FloorsRise(p, limit, i, j - 1);
      ChainedFloors(p, limit, j - 1);
    }
  }

  /** For every text, accepted or not: the components that are set are slices of it, pairwise
      disjoint and in the order scheme, username, password, host, port, path, query, fragment. */
  lemma ComponentsAreOrderedSlices(url: string, i: nat, j: nat)
    requires i < j < 8
    ensures var v, w := Component(Parsed(url).1, i), Component(Parsed(url).1, j);
            && (v.View? ==> v.from <= v.to <= |url|)
            && (w.View? ==> w.from <= w.to <= |url|)
            && (v.View? && w.View? ==> v.to <= w.from)
  {
    hide Parsed, Chained, Component, Floor;
    var p := Parsed(url).1;
    assert Laid(p, 8, |url|);
    ChainedFloors(p, |url|, i);
    ChainedFloors(p, |url|, j);
    FloorStep(p, i);
    FloorStep(p, j);
    FloorsRise(p, |url|, i + 1, j);
    FloorsRise(p, |url|, i + 1, 8);
    FloorsRise(p, |url|, j + 1, 8);
  }

  lemma PartInside(p: Parts, limit: nat, i: nat)
    requires Laid(p, 8, limit) && i < 8
    ensures var v := Component(p, i); v.View? ==> v.from <= v.to <= limit
  {
  }

  lemma FloorOfNone(p: Parts, i: nat)
    requires i == 0
    ensures Floor(p, i) == 0
  {
  }

  lemma FloorStep(p: Parts, i: nat)
    ensures Floor(p, i + 1) == End(Component(p, i), Floor(p, i))
  {
  }
}
