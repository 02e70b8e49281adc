/** Preview host names: printed for the router, parsed for wake and auth
    (control-plane/internal/traefik/traefik.go, control-plane/internal/api/preview_common.go,
    control-plane/internal/api/forward_auth.go, control-plane/internal/wake/handler.go). */
module Preview {
  import opened Common
  import opened Timestamps
  import Rows

  predicate IsAlnum(c: char) {
    IsDigit(c) || 'a' <= c <= 'z' || 'A' <= c <= 'Z'
  }

  /** The id of a host is a non-empty run of letters and digits. */
  predicate IsName(s: string) {
    s != "" && forall i :: 0 <= i < |s| ==> IsAlnum(s[i])
  }

  predicate IsDigits(s: string) {
    s != "" && forall i :: 0 <= i < |s| ==> IsDigit(s[i])
  }

  /** A number as `%d` prints it. */
  function Decimal(n: nat): (s: string)
    ensures IsDigits(s)
  {
    if n < 10 then [DigitChar(n)] else Decimal(n / 10) + [DigitChar(n % 10)]
  }

  lemma {:induction false} NumberOfDecimal(n: nat)
    ensures Number(Decimal(n)) == n
  {
    if n >= 10 {
      NumberOfDecimal(n / 10);
      assert Decimal(n)[..|Decimal(n)| - 1] == Decimal(n / 10);
    } else {
      assert Decimal(n)[..0] == "";
    }
  }

  /** The part of a router, service and host name that carries the id and the port. */
  function RouterName(id: string, port: nat): string {
    "s-" + id + "-" + Decimal(port)
  }

  function Host(id: string, port: nat, domain: string): string {
    RouterName(id, port) + ".preview." + domain
  }

  /** What may follow the host: nothing, or a colon and a port. */
  predicate IsSuffix(s: string) {
    s == "" || (s[0] == ':' && IsDigits(s[1..]))
  }

  function Fixed(domain: string): (f: string)
    ensures f != "" && f[0] == '.'
  {
    ".preview." + domain
  }

  /** The pattern both parsers use: `s-<id>-<digits>.preview.<domain>` and a suffix. */
  predicate Matches(host: string, domain: string, id: string, port: string, suffix: string) {
    && IsName(id) && IsDigits(port) && IsSuffix(suffix)
    && host == "s-" + (id + ("-" + (port + (Fixed(domain) + suffix))))
  }

  // --- parsing is a function ---------------------------------------------------------------------

  /** The length of the leading run of characters of one kind. */
  function Span(s: string, p: char -> bool): (n: nat)
    ensures n <= |s|
  {
    if s == "" || !p(s[0]) then 0 else 1 + Span(s[1..], p)
  }

  lemma {:induction false} SpanOf(run: string, rest: string, p: char -> bool)
    requires forall i :: 0 <= i < |run| ==> p(run[i])
    requires rest == "" || !p(rest[0])
    ensures Span(run + rest, p) == |run|
    decreases |run|
  {
    if run == "" {
      assert run + rest == rest;
    } else {
      assert (run + rest)[1..] == run[1..] + rest;
      SpanOf(run[1..], rest, p);
    }
  }

  lemma {:induction false} SpanIsRun(s: string, p: char -> bool)
    ensures forall i :: 0 <= i < Span(s, p) ==> p(s[i])
    decreases |s|
  {
    if s != "" && p(s[0]) {
      SpanIsRun(s[1..], p);
      assert forall i :: 1 <= i < |s| ==> s[i] == s[1..][i - 1];
    }
  }

  datatype Parsed = Parsed(id: string, port: string, suffix: string)

  /** The digits, then the fixed part, then the suffix. */
  function ParseTail(tail: string, fixed: string): Option<(string, string)> {
    var m := Span(tail, IsDigit);
    if m == 0 || !(fixed <= tail[m..]) then None
    else
      var suffix := tail[m..][|fixed|..];
      if IsSuffix(suffix) then Some((tail[..m], suffix)) else None
  }

  /** The id up to its dash, then the rest. */
  function ParseRest(rest: string, fixed: string): Option<Parsed> {
    var n := Span(rest, IsAlnum);
    if n == 0 || n == |rest| || rest[n] != '-' then None
    else
      match ParseTail(rest[n..][1..], fixed)
      case None => None
      case Some(p) => Some(Parsed(rest[..n], p.0, p.1))
  }

  function Parse(host: string, domain: string): Option<Parsed> {
    if "s-" <= host then ParseRest(host[2..], Fixed(domain)) else None
  }

  lemma {:induction false} TailIff(tail: string, fixed: string, port: string, suffix: string)
    requires fixed != "" && !IsDigit(fixed[0])
    ensures ParseTail(tail, fixed) == Some((port, suffix)) <==>
      IsDigits(port) && IsSuffix(suffix) && tail == port + (fixed + suffix)
  {
    if IsDigits(port) && IsSuffix(suffix) && tail == port + (fixed + suffix) {
      SpanOf(port, fixed + suffix, IsDigit);
      assert tail[|port|..] == fixed + suffix && tail[..|port|] == port;
      assert (fixed + suffix)[|fixed|..] == suffix;
    } else {
      SpanIsRun(tail, IsDigit);
      var m := Span(tail, IsDigit);
      assert tail == tail[..m] + tail[m..];
      assert fixed <= tail[m..] ==> tail[m..] == fixed + tail[m..][|fixed|..];
    }
  }

  lemma {:induction false} RestIff(rest: string, fixed: string, id: string, port: string, suffix: string)
    requires fixed != "" && !IsDigit(fixed[0])
    ensures ParseRest(rest, fixed) == Some(Parsed(id, port, suffix)) <==>
      IsName(id) && IsDigits(port) && IsSuffix(suffix) && rest == id + ("-" + (port + (fixed + suffix)))
  {
    var n := Span(rest, IsAlnum);
    var tail := port + (fixed + suffix);
    if IsName(id) && IsDigits(port) && IsSuffix(suffix) && rest == id + ("-" + tail) {
      SpanOf(id, "-" + tail, IsAlnum);
      assert rest[|id|..] == "-" + tail && rest[..|id|] == id;
      assert ("-" + tail)[1..] == tail;
      TailIff(tail, fixed, port, suffix);
    }
    if ParseRest(rest, fixed).Some? {
      ParsedRest(rest, fixed);
    }
  }

  lemma {:induction false} ParsedRest(rest: string, fixed: string)
    requires fixed != "" && !IsDigit(fixed[0]) && ParseRest(rest, fixed).Some?
    ensures var p := ParseRest(rest, fixed).value;
      && IsName(p.id) && IsDigits(p.port) && IsSuffix(p.suffix)
      && rest == p.id + ("-" + (p.port + (fixed + p.suffix)))
  {
    var p, n := ParseRest(rest, fixed).value, Span(rest, IsAlnum);
    SpanIsRun(rest, IsAlnum);
    var tail := rest[n..][1..];
    TailIff(tail, fixed, p.port, p.suffix);
    Halves(rest, n);
  }

  lemma {:induction false} Halves(s: string, n: nat)
    requires n < |s| && s[n] == '-'
    ensures s == s[..n] + ("-" + s[n..][1..])
  {
    assert s[n..] == "-" + s[n..][1..];
    assert s == s[..n] + s[n..];
  }

  /** The parser finds a match exactly when there is one, and there is never a second. */
  lemma {:induction false} ParseIff(host: string, domain: string, id: string, port: string, suffix: string)
    ensures Parse(host, domain) == Some(Parsed(id, port, suffix)) <==> Matches(host, domain, id, port, suffix)
  {
    var fixed := Fixed(domain);
    if "s-" <= host {
      assert host == "s-" + host[2..];
      RestIff(host[2..], fixed, id, port, suffix);
      var rest := id + ("-" + (port + (fixed + suffix)));
      assert ("s-" + rest)[2..] == rest;
    } else {
      var rest := id + ("-" + (port + (fixed + suffix)));
      assert "s-" <= "s-" + rest;
    }
  }

  // --- round trips -----------------------------------------------------------------------------

  lemma {:induction false} HostForm(id: string, port: nat, domain: string, suffix: string)
    ensures Host(id, port, domain) + suffix == "s-" + (id + ("-" + (Decimal(port) + (Fixed(domain) + suffix))))
  {
    var d, f := Decimal(port), Fixed(domain);
    var name := RouterName(id, port);
    assert Host(id, port, domain) == name + f;
    assert name + f + suffix == name + (f + suffix);
    assert name == "s-" + (id + ("-" + d));
    assert "s-" + (id + ("-" + d)) + (f + suffix) == "s-" + (id + ("-" + (d + (f + suffix))));
  }

  /** Parsing what the router was given returns the id and the port, with or without a port
      suffix, exactly when the id is letters and digits; any other id is never returned. */
  lemma {:induction false} HostRoundTripIff(id: string, port: nat, domain: string, suffix: string)
    requires IsSuffix(suffix)
    ensures Parse(Host(id, port, domain) + suffix, domain) == Some(Parsed(id, Decimal(port), suffix)) <==> IsName(id)
    ensures Number(Decimal(port)) == port
  {
    NumberOfDecimal(port);
    HostForm(id, port, domain, suffix);
    ParseIff(Host(id, port, domain) + suffix, domain, id, Decimal(port), suffix);
  }

  /** The last dash of a name before its digits is where it says. */
  lemma {:induction false} LastDash(a: string, d: string, a': string, d': string)
    requires IsDigits(d) && IsDigits(d') && a + "-" + d == a' + "-" + d'
    ensures a == a' && d == d'
  {
    var name := a + "-" + d;
    assert name[|a|] == '-' && name[|a'|] == '-';
    assert forall i :: |a| < i < |name| ==> name[i] == d[i - |a| - 1];
    assert forall i :: |a'| < i < |name| ==> name[i] == d'[i - |a'| - 1];
    assert |a| == |a'|;
    assert name[..|a|] == a && name[..|a'|] == a';
    assert name[|a| + 1..] == d && name[|a'| + 1..] == d';
  }

  /** Router names determine id and port, whatever the ids are made of. */
  lemma {:induction false} RouterNamesAreInjective(id: string, port: nat, id': string, port': nat)
    ensures RouterName(id, port) == RouterName(id', port') <==> id == id' && port == port'
  {
    if RouterName(id, port) == RouterName(id', port') {
      LastDash("s-" + id, Decimal(port), "s-" + id', Decimal(port'));
      assert ("s-" + id)[2..] == id && ("s-" + id')[2..] == id';
      NumberOfDecimal(port);
      NumberOfDecimal(port');
    }
  }

  // --- the catch-all and forward-auth ------------------------------------------------------------

  function LowerChar(c: char): char {
    if 'A' <= c <= 'Z' then c - 'A' + 'a' else c
  }

  function UpperChar(c: char): char {
    if 'a' <= c <= 'z' then c - 'a' + 'A' else c
  }

  function Lower(s: string): string {
    seq(|s|, i requires 0 <= i < |s| => LowerChar(s[i]))
  }

  function Upper(s: string): string {
    seq(|s|, i requires 0 <= i < |s| => UpperChar(s[i]))
  }

  /** The id the wake handler looks up for a request's host. */
  function CatchAll(host: string, domain: string): Option<(string, string)> {
    match Parse(host, domain)
    case None => None
    case Some(p) => Some((Upper(p.id), p.port))
  }

  /** The id forward-auth looks up for a forwarded host: as it stands there. */
  function ForwardAuth(host: string, domain: string): Option<string> {
    match Parse(host, domain)
    case None => None
    case Some(p) => Some(p.id)
  }

  lemma {:induction false} LowerConcat(a: string, b: string)
    ensures Lower(a + b) == Lower(a) + Lower(b)
  {
  }

  lemma {:induction false} LowerOfHost(id: string, port: nat, domain: string)
    ensures Lower(Host(id, port, domain)) == Host(Lower(id), port, Lower(domain))
  {
    var d := Decimal(port);
    LowerConcat("s-" + id + "-" + d + ".preview.", domain);
    LowerConcat("s-" + id + "-" + d, ".preview.");
    LowerConcat("s-" + id + "-", d);
    LowerConcat("s-" + id, "-");
    LowerConcat("s-", id);
    assert Lower(d) == d && Lower("s-") == "s-" && Lower("-") == "-";
    assert Lower(".preview.") == ".preview.";
  }

  lemma {:induction false} LowerIsName(id: string)
    requires IsName(id)
    ensures IsName(Lower(id)) && Upper(Lower(id)) == Upper(id)
  {
  }

  lemma {:induction false} LowerSuffix(suffix: string)
    requires IsSuffix(suffix)
    ensures Lower(suffix) == suffix
  {
    if suffix != "" {
      assert forall i :: 1 <= i < |suffix| ==> suffix[i] == suffix[1..][i - 1];
    }
  }

  /** A host with this id and port matches only one domain of each length. */
  lemma {:induction false} SameDomain(host: string, domain: string, other: string, id: string, port: string,
                                      suffix: string, suffix': string)
    requires Matches(host, domain, id, port, suffix) && Matches(host, other, id, port, suffix')
    requires |other| == |domain|
    ensures other == domain
  {
    var head := "s-" + (id + ("-" + port));
    var f, f' := Fixed(domain), Fixed(other);
    assert host == head + (f + suffix) && host == head + (f' + suffix');
    assert host[|head|..] == f + suffix && host[|head|..] == f' + suffix';
    assert (f + suffix)[..|f|] == f && (f' + suffix')[..|f|] == f';
    assert f[9..] == domain && f'[9..] == other;
  }

  /** A browser lower-cases the host (section 3.2.2 of RFC 3986 makes it case-insensitive). The
      pattern then matches exactly if the configured domain has no upper-case letter, and the id it
      captures is the lower-cased one. */
  lemma {:induction false} ParseLowered(id: string, port: nat, domain: string, suffix: string)
    requires IsName(id) && IsSuffix(suffix)
    ensures Parse(Lower(Host(id, port, domain) + suffix), domain)
      == if Lower(domain) == domain then Some(Parsed(Lower(id), Decimal(port), suffix)) else None
  {
    var host, low, d := Lower(Host(id, port, domain) + suffix), Lower(id), Decimal(port);
    LowerConcat(Host(id, port, domain), suffix);
    LowerOfHost(id, port, domain);
    LowerIsName(id);
    LowerSuffix(suffix);
    HostForm(low, port, Lower(domain), suffix);
    assert Matches(host, Lower(domain), low, d, suffix);
    ParseIff(host, domain, low, d, suffix);
    if Parse(host, domain).Some? {
      var found := Parse(host, domain).value;
      ParseIff(host, domain, found.id, found.port, found.suffix);
      SameName(host, Lower(domain), low, d, suffix, domain, found);
      SameDomain(host, Lower(domain), domain, low, d, suffix, found.suffix);
    }
  }

  /** From such a host the catch-all still finds the sandbox exactly when its id has no lower-case
      letter and the configured domain no upper-case one. */
  lemma {:induction false} CatchAllRecoversIff(id: string, port: nat, domain: string, suffix: string)
    requires IsName(id) && IsSuffix(suffix)
    ensures CatchAll(Lower(Host(id, port, domain) + suffix), domain) == Some((id, Decimal(port)))
      <==> Upper(id) == id && Lower(domain) == domain
  {
    ParseLowered(id, port, domain, suffix);
    LowerIsName(id);
  }

  /** Forward-auth finds it exactly when its id has no upper-case letter, on the same domains. */
  lemma {:induction false} ForwardAuthRecoversIff(id: string, port: nat, domain: string, suffix: string)
    requires IsName(id) && IsSuffix(suffix)
    ensures ForwardAuth(Lower(Host(id, port, domain) + suffix), domain) == Some(id)
      <==> Lower(id) == id && Lower(domain) == domain
  {
    ParseLowered(id, port, domain, suffix);
  }

  lemma {:induction false} CaselessIff(id: string)
    requires IsName(id)
    ensures Upper(id) == id && Lower(id) == id <==> IsDigits(id)
  {
    if Upper(id) == id && Lower(id) == id {
      forall i | 0 <= i < |id|
        ensures IsDigit(id[i])
      {
        assert IsAlnum(id[i]) && Upper(id)[i] == id[i] && Lower(id)[i] == id[i];
      }
    }
  }

  /** So from a browser's host the two find the same sandbox only if its id has no letters at all. */
  lemma {:induction false} BothRecoverIff(id: string, port: nat, domain: string, suffix: string)
    requires IsName(id) && IsSuffix(suffix)
    ensures var host := Lower(Host(id, port, domain) + suffix);
      (CatchAll(host, domain) == Some((id, Decimal(port))) && ForwardAuth(host, domain) == Some(id))
      <==> IsDigits(id) && Lower(domain) == domain
  {
    CatchAllRecoversIff(id, port, domain, suffix);
    ForwardAuthRecoversIff(id, port, domain, suffix);
    CaselessIff(id);
  }

  /** Id and port do not depend on the domain that is matched. */
  lemma {:induction false} SameName(host: string, domain: string, id: string, port: string, suffix: string,
                                    other: string, found: Parsed)
    requires Matches(host, domain, id, port, suffix) && Matches(host, other, found.id, found.port, found.suffix)
    ensures found.id == id && found.port == port
  {
    var tail, tail' := port + (Fixed(domain) + suffix), found.port + (Fixed(other) + found.suffix);
    var rest, rest' := id + ("-" + tail), found.id + ("-" + tail');
    assert ("s-" + rest)[2..] == rest && ("s-" + rest')[2..] == rest';
    SpanOf(id, "-" + tail, IsAlnum);
    SpanOf(found.id, "-" + tail', IsAlnum);
    assert rest[..|id|] == id && rest'[..|id|] == found.id;
    assert rest[|id| + 1..] == tail && rest'[|id| + 1..] == tail';
    SpanOf(port, Fixed(domain) + suffix, IsDigit);
    SpanOf(found.port, Fixed(other) + found.suffix, IsDigit);
    assert tail[..|port|] == port && tail'[..|port|] == found.port;
  }

  // --- the labels ----------------------------------------------------------------------------------

  /** A container label by what it configures. */
  datatype Label =
    | Enable
    | Managed
    | Rule(router: string, host: string)
    | EntryPoints(router: string, entrypoint: string)
    | Priority(router: string)
    | ServicePort(router: string, port: nat)
    | Tls(router: string)
    | AuthMiddleware(router: string)

  function PortLabels(id: string, port: nat, domain: string, isPrivate: bool, entrypoint: string, tls: bool): seq<Label> {
    var r := RouterName(id, port);
    [Rule(r, Host(id, port, domain)), EntryPoints(r, entrypoint), Priority(r), ServicePort(r, port)]
    + (if tls then [Tls(r)] else []) + (if isPrivate then [AuthMiddleware(r)] else [])
  }

  ghost predicate OfPort(l: Label, id: string, ports: seq<nat>, domain: string, isPrivate: bool, entrypoint: string,
                         tls: bool) {
    exists p :: p in ports && l in PortLabels(id, p, domain, isPrivate, entrypoint, tls)
  }

  lemma {:induction false} OneMorePort(l: Label, id: string, ports: seq<nat>, i: nat, domain: string, isPrivate: bool,
                                       entrypoint: string, tls: bool)
    requires i < |ports|
    ensures OfPort(l, id, ports[..i + 1], domain, isPrivate, entrypoint, tls) <==>
      OfPort(l, id, ports[..i], domain, isPrivate, entrypoint, tls)
      || l in PortLabels(id, ports[i], domain, isPrivate, entrypoint, tls)
  {
    assert ports[..i + 1] == ports[..i] + [ports[i]];
  }

  /** The labels a sandbox must carry, and the only ones. */
  ghost predicate Required(l: Label, id: string, ports: seq<nat>, domain: string, isPrivate: bool, entrypoint: string,
                           tls: bool) {
    match l
    case Enable => ports != []
    case Managed => ports != []
    case Rule(r, host) => exists p :: p in ports && r == RouterName(id, p) && host == Host(id, p, domain)
    case EntryPoints(r, e) => e == entrypoint && exists p :: p in ports && r == RouterName(id, p)
    case Priority(r) => exists p :: p in ports && r == RouterName(id, p)
    case ServicePort(r, port) => port in ports && r == RouterName(id, port)
    case Tls(r) => tls && exists p :: p in ports && r == RouterName(id, p)
    case AuthMiddleware(r) => isPrivate && exists p :: p in ports && r == RouterName(id, p)
  }

  lemma {:induction false} LabelOfPort(l: Label, id: string, p: nat, domain: string, isPrivate: bool, entrypoint: string,
                                       tls: bool)
    ensures l in PortLabels(id, p, domain, isPrivate, entrypoint, tls) <==>
      match l
      case Enable => false
      case Managed => false
      case Rule(r, host) => r == RouterName(id, p) && host == Host(id, p, domain)
      case EntryPoints(r, e) => e == entrypoint && r == RouterName(id, p)
      case Priority(r) => r == RouterName(id, p)
      case ServicePort(r, port) => port == p && r == RouterName(id, p)
      case Tls(r) => tls && r == RouterName(id, p)
      case AuthMiddleware(r) => isPrivate && r == RouterName(id, p)
  {
  }

  lemma {:induction false} RequiredIff(l: Label, id: string, ports: seq<nat>, domain: string, isPrivate: bool,
                                       entrypoint: string, tls: bool)
    requires !l.Enable? && !l.Managed?
    ensures Required(l, id, ports, domain, isPrivate, entrypoint, tls) <==>
      OfPort(l, id, ports, domain, isPrivate, entrypoint, tls)
  {
    if OfPort(l, id, ports, domain, isPrivate, entrypoint, tls) {
      var p :| p in ports && l in PortLabels(id, p, domain, isPrivate, entrypoint, tls);
      LabelOfPort(l, id, p, domain, isPrivate, entrypoint, tls);
    }
    if Required(l, id, ports, domain, isPrivate, entrypoint, tls) {
      var p := PortOf(l, id, ports, domain, isPrivate, entrypoint, tls);
      LabelOfPort(l, id, p, domain, isPrivate, entrypoint, tls);
    }
  }

  lemma {:induction false} PortOf(l: Label, id: string, ports: seq<nat>, domain: string, isPrivate: bool,
                                  entrypoint: string, tls: bool) returns (p: nat)
    requires !l.Enable? && !l.Managed? && Required(l, id, ports, domain, isPrivate, entrypoint, tls)
    ensures p in ports && l.router == RouterName(id, p) && (l.ServicePort? ==> l.port == p)
    ensures l.Rule? ==> l.host == Host(id, p, domain)
  {
    if l.Rule? {
      p :| p in ports && l.router == RouterName(id, p) && l.host == Host(id, p, domain);
    } else if l.ServicePort? {
      p := l.port;
    } else {
      p :| p in ports && l.router == RouterName(id, p);
    }
  }

  /** A sandbox with ports carries exactly the required labels: one router and service per port
      under the name that determines it, the auth middleware on every router if the sandbox is
      private and on none otherwise. */
  method Labels(id: string, ports: seq<nat>, domain: string, visibility: string, entrypoint: string, tls: bool)
    returns (out: seq<Label>)
    ensures forall l :: l in out <==>
      Required(l, id, ports, domain, visibility == "private", if entrypoint == "" then "web" else entrypoint, tls)
  {
    if |ports| == 0 {
      return [];
    }
    var entry := if entrypoint == "" then "web" else entrypoint;
    var gated := visibility == "private";
    out := [Enable, Managed];
    for i := 0 to |ports|
      invariant forall l :: l in out <==> l == Enable || l == Managed || OfPort(l, id, ports[..i], domain, gated, entry, tls)
    {
      var p := ports[i];
      var router := RouterName(id, p);
      var more := [Rule(router, Host(id, p, domain)), EntryPoints(router, entry), Priority(router), ServicePort(router, p)];
      if tls {
        more := more + [Tls(router)];
      }
      if gated {
        more := more + [AuthMiddleware(router)];
      }
      assert more == PortLabels(id, p, domain, gated, entry, tls);
      forall l
        ensures OfPort(l, id, ports[..i + 1], domain, gated, entry, tls) <==>
          OfPort(l, id, ports[..i], domain, gated, entry, tls) || l in more
      {
        OneMorePort(l, id, ports, i, domain, gated, entry, tls);
      }
      out := out + more;
    }
    assert ports[..|ports|] == ports;
    forall l | l != Enable && l != Managed
      ensures Required(l, id, ports, domain, gated, entry, tls) <==> OfPort(l, id, ports, domain, gated, entry, tls)
    {
      RequiredIff(l, id, ports, domain, gated, entry, tls);
    }
  }

  /** From the request on: each router of a sandbox that is created carries the auth middleware
      exactly if the sandbox was requested private, whether that is read off the request or off the
      row that is stored, which is what forward-auth and the wake gate go by. */
  lemma {:induction false} PrivateIsGated(db: Rows.Db, id: string, n: Rows.NewRow, failAt: nat, ports: seq<nat>, p: nat,
                                          domain: string, entrypoint: string, tls: bool)
    requires Rows.Exec(db, Rows.Create(id, n), failAt).1 == Rows.Ok && n.ports == ports && p in ports
    ensures var row := Rows.Exec(db, Rows.Create(id, n), failAt).0.sandboxes;
      && id in row && (row[id].visibility == "private" <==> n.visibility == "private")
      && (Required(AuthMiddleware(RouterName(id, p)), id, ports, domain, row[id].visibility == "private", entrypoint, tls)
          <==> n.visibility == "private")
  {
    Rows.CreatedRow(db, id, n, failAt);
  }

  /** For one sandbox with a lower-case id: the wake looks up another. */
  lemma {:induction false} LowerCaseIdIsNotFound()
    ensures CatchAll(Lower(Host("a", 80, "d")), "d") == Some(("A", Decimal(80)))
  {
    LowerOfHost("a", 80, "d");
    assert Lower("a") == "a" && Lower("d") == "d" && Upper("a") == "A";
    HostRoundTripIff("a", 80, "d", "");
    assert Host("a", 80, "d") + "" == Host("a", 80, "d");
  }

  /** For one with an upper-case id it is forward-auth that does. */
  lemma {:induction false} UpperCaseIdIsNotFound()
    ensures ForwardAuth(Lower(Host("A", 80, "d")), "d") == Some("a")
  {
    assert Lower("A") == "a" && Lower("d") == "d" && IsName("A");
    ParseLowered("A", 80, "d", "");
    assert Host("A", 80, "d") + "" == Host("A", 80, "d");
  }
}
