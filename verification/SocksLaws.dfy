/** What a server that follows RFC 1928 and RFC 1929 makes of the bytes the dialers send,
    and what the dialers make of the bytes such a server sends. The parsers here are
    written from the two documents, not from the client. */
module SocksLaws {
  import opened Common
  import opened Socks5

  /** A value read off the front of a byte sequence, and the rest. */
  datatype Parsed<T> = Parsed(value: T, rest: bytes)

  datatype Address = V4(address: bytes) | V6(address: bytes) | Domain(name: bytes)

  /** A request, or a reply to one: its command or reply code, an address and a port. */
  datatype Message = Message(code: byte, address: Address, port: nat)

  /** What a server learns from a client. */
  datatype Session = Session(methods: bytes, credentials: Option<Credentials>, request: Message)

  // ---- parsers ----

  /** n bytes off the front. */
  function ParseBytes(s: bytes, n: nat): Option<Parsed<bytes>> {
    if |s| < n then None else Some(Parsed(s[..n], s[n..]))
  }

  /** A length byte and as many bytes. */
  function ParseCounted(s: bytes): Option<Parsed<bytes>> {
    if s == [] then None else ParseBytes(s[1..], s[0])
  }

  /** Section 3 of RFC 1928: VER, NMETHODS, METHODS. */
  function ParseGreeting(s: bytes): Option<Parsed<bytes>> {
    if s == [] || s[0] != 5 then None else ParseCounted(s[1..])
  }

  /** Section 2 of RFC 1929: VER, ULEN, UNAME, PLEN, PASSWD. */
  function ParseAuth(s: bytes): Option<Parsed<Credentials>> {
    if s == [] || s[0] != 1 then None
    else
      match ParseCounted(s[1..])
      case None => None
      case Some(user) =>
        match ParseCounted(user.rest)
        case None => None
        case Some(pass) => Some(Parsed(Credentials(user.value, pass.value), pass.rest))
  }

  /** Section 5 of RFC 1928: ATYP and the address. */
  function ParseAddress(s: bytes): Option<Parsed<Address>> {
    if s == [] then None
    else if s[0] == 1 then
      match ParseBytes(s[1..], 4) case None => None case Some(a) => Some(Parsed(V4(a.value), a.rest))
    else if s[0] == 4 then
      match ParseBytes(s[1..], 16) case None => None case Some(a) => Some(Parsed(V6(a.value), a.rest))
    else if s[0] == 3 then
      match ParseCounted(s[1..]) case None => None case Some(a) => Some(Parsed(Domain(a.value), a.rest))
    else None
  }

  /** Sections 4 and 6 of RFC 1928: VER, CMD or REP, RSV, ATYP, address, port. */
  function ParseMessage(s: bytes): Option<Parsed<Message>> {
    if |s| < 3 || s[0] != 5 || s[2] != 0 then None
    else
      match ParseAddress(s[3..])
      case None => None
      case Some(a) =>
        match ParseBytes(a.rest, 2)
        case None => None
        case Some(p) => Some(Parsed(Message(s[1], a.value, p.value[0] as int * 256 + p.value[1] as int), p.rest))
  }

  /** All a server reads, having chosen the given method. */
  function ServerReads(s: bytes, method_: byte): Option<Session> {
    match ParseGreeting(s)
    case None => None
    case Some(g) =>
      if method_ == 2 then
        match ParseAuth(g.rest)
        case None => None
        case Some(a) => WithRequest(g.value, Some(a.value), a.rest)
      else WithRequest(g.value, None, g.rest)
  }

  function WithRequest(methods: bytes, credentials: Option<Credentials>, s: bytes): Option<Session> {
    match ParseMessage(s)
    case None => None
    case Some(m) => if m.rest == [] then Some(Session(methods, credentials, m.value)) else None
  }

  // ---- what is sent ----

  /** A host as the wire format has it: a mapped IPv4 address is an IPv4 address. */
  function Normal(h: Host): Address
    requires h.Valid()
  {
    match h
    case Ip(ip) => if Mapped(ip) then V4(ip[12..]) else V6(ip)
    case Name(n) => Domain(n)
  }

  lemma {:induction false} CountedParses(a: bytes, rest: bytes)
    requires |a| <= 255
    ensures ParseCounted([|a|] + a + rest) == Some(Parsed(a, rest))
  {
    assert ([|a|] + a + rest)[1..] == a + rest;
    BytesParse(a, rest);
  }

  lemma {:induction false} GreetingParses(hasAuth: bool, rest: bytes)
    ensures ParseGreeting(Greeting(hasAuth) + rest) == Some(Parsed([if hasAuth then 2 else 0], rest))
  {
    var m: bytes := [if hasAuth then 2 else 0];
    var s := Greeting(hasAuth) + rest;
    assert s[1..] == [|m|] + m + rest;
    CountedParses(m, rest);
  }

  lemma {:induction false} AuthParses(c: Credentials, rest: bytes)
    requires c.Fit()
    ensures ParseAuth(AuthMessage(c) + rest) == Some(Parsed(c, rest))
  {
    var s := AuthMessage(c) + rest;
    assert s[1..] == [|c.username|] + c.username + ([|c.password|] + c.password + rest);
    CountedParses(c.username, [|c.password|] + c.password + rest);
    CountedParses(c.password, rest);
  }

  lemma {:induction false} BytesParse(a: bytes, rest: bytes)
    ensures ParseBytes(a + rest, |a|) == Some(Parsed(a, rest))
  {
    assert (a + rest)[..|a|] == a && (a + rest)[|a|..] == rest;
  }

  lemma {:induction false} IpParses(kind: byte, a: bytes, rest: bytes)
    requires (kind == 1 && |a| == 4) || (kind == 4 && |a| == 16)
    ensures ParseAddress([kind] + a + rest) == Some(Parsed(if kind == 1 then V4(a) else V6(a), rest))
  {
    assert ([kind] + a + rest)[1..] == a + rest;
    BytesParse(a, rest);
  }

  lemma {:induction false} NameParses(n: bytes, rest: bytes)
    requires |n| <= 255
    ensures ParseAddress([3, |n|] + n + rest) == Some(Parsed(Domain(n), rest))
  {
    assert ([3, |n|] + n + rest)[1..] == [|n|] + n + rest;
    CountedParses(n, rest);
  }

  lemma {:induction false} AddressParses(h: Host, rest: bytes)
    requires h.Valid() && (h.Name? ==> |h.name| <= 255)
    ensures ParseAddress(AddressField(h) + rest) == Some(Parsed(Normal(h), rest))
  {
    hide Mapped, ParseAddress;
    match h {
      case Ip(ip) =>
        if Mapped(ip) {
          IpParses(1, ip[12..], rest);
        } else {
          IpParses(4, ip, rest);
        }
      case Name(n) => NameParses(n, rest);
    }
  }

  lemma {:induction false} RequestParses(h: Host, port: int)
    requires h.Valid() && (h.Name? ==> |h.name| <= 255) && 0 <= port < 65536
    ensures ParseMessage(Request(h, port)) == Some(Parsed(Message(1, Normal(h), port), []))
  {
    hide AddressField, Normal;
    var s := Request(h, port);
    assert s[3..] == AddressField(h) + PortField(port);
    AddressParses(h, PortField(port));
    assert PortField(port)[..2] == PortField(port) && PortField(port)[2..] == [];
  }

  /** Everything a client has written once its request is out. */
  function Written(c: Credentials, code: byte, h: Host, port: int): bytes
    requires code == 2 ==> c.Fit()
    requires h.Valid() && (h.Name? ==> |h.name| <= 255) && 0 <= port < 65536
  {
    Greeting(c.HasAuth()) + ((if code == 2 then AuthMessage(c) else []) + Request(h, port))
  }

  lemma {:induction false} WrittenParses(c: Credentials, code: byte, h: Host, port: int)
    requires code == 2 ==> c.Fit()
    requires h.Valid() && (h.Name? ==> |h.name| <= 255) && 0 <= port < 65536
    ensures ServerReads(Written(c, code, h, port), code) ==
            Some(Session([if c.HasAuth() then 2 else 0], if code == 2 then Some(c) else None,
                         Message(1, Normal(h), port)))
  {
    hide Greeting, AuthMessage, Request, ParseGreeting, ParseAuth, ParseMessage, Normal;
    var rest := Request(h, port);
    RequestParses(h, port);
    GreetingParses(c.HasAuth(), (if code == 2 then AuthMessage(c) else []) + rest);
    if code == 2 {
      AuthParses(c, rest);
    } else {
      assert [] + rest == rest;
    }
  }

  /** The request has been written. */
  predicate Requested(p: Progress) {
    p.Went? || p.why in {NoConnectReply, NoBoundAddress, BadAddressType} || p.why.Refused?
  }

  function Opened(input: bytes, writes: nat): Link {
    Link(input, 0, [], writes)
  }

  lemma {:induction false} LoginSends(input: bytes, writes: nat, c: Credentials)
    ensures var g := Greet(Opened(input, writes), c.HasAuth());
            if g.Failed? then !Requested(g)
            else
              && |input| >= 2 && g.got[1] == input[1]
              && var u := UseMethod(g.link, c, input[1]);
                 if u.Failed? then !Requested(u)
                 else
                   && (input[1] == 2 ==> c.Fit())
                   && u.link.sent == Greeting(c.HasAuth()) + (if input[1] == 2 then AuthMessage(c) else [])
  {
    hide AuthMessage, Greeting;
    assert [] + Greeting(c.HasAuth()) == Greeting(c.HasAuth());
  }

  lemma {:induction false} ConnectSends(l: Link, t: Target)
    requires l.Valid() && t.Valid()
    ensures var p := Connect(l, t);
            Requested(p) ==> Unusable(t).None? && p.link.sent == l.sent + Request(t.host, t.port.value)
  {
    hide Request;
  }

  lemma {:induction false} SentIsWritten(input: bytes, writes: nat, c: Credentials, t: Target)
    requires t.Valid()
    ensures var p := Negotiate(Opened(input, writes), c, t);
            Requested(p) ==>
              && |input| >= 2 && (input[1] == 2 ==> c.Fit()) && Unusable(t).None?
              && p.link.sent == Written(c, input[1], t.host, t.port.value)
  {
    hide Greet, UseMethod, Connect, AuthMessage, Request, Greeting;
    LoginSends(input, writes, c);
    var g := Greet(Opened(input, writes), c.HasAuth());
    if g.Went? && UseMethod(g.link, c, g.got[1]).Went? {
      var u := UseMethod(g.link, c, g.got[1]);
      ConnectSends(u.link, t);
      if Unusable(t).None? {
        var login := if input[1] == 2 then AuthMessage(c) else [];
        SumAssociates(Greeting(c.HasAuth()), login, Request(t.host, t.port.value));
      }
    }
  }

  lemma {:induction false} SumAssociates(a: bytes, b: bytes, c: bytes)
    ensures a + b + c == a + (b + c)
  {
  }

  /** For every target, credentials and server: once the request is out, a server that
      parses what it was sent by the two documents recovers the method offered, the
      credentials if it asked for them, the port, and the address up to IPv4 mapping. */
  lemma {:induction false} ServerUnderstands(input: bytes, writes: nat, c: Credentials, t: Target)
    requires t.Valid() && Requested(Dial(Opened(input, writes), c, t))
    ensures |input| >= 2 && t.Target? && t.port.Some? && 0 <= t.port.value < 65536
    ensures ServerReads(Dial(Opened(input, writes), c, t).link.sent, input[1]) ==
            Some(Session([if c.HasAuth() then 2 else 0], if input[1] == 2 then Some(c) else None,
                         Message(1, Normal(t.host), t.port.value)))
  {
    hide Negotiate, ServerReads, Written, Normal;
    SameBytes(Opened(input, writes), c, t);
    SentIsWritten(input, writes, c, t);
    WrittenParses(c, input[1], t.host, t.port.value);
  }

  lemma {:induction false} MappedMeaning(ip: bytes)
    requires |ip| == 16
    ensures Mapped(ip) <==> ip[..12] == [0, 0, 0, 0, 0, 0, 0, 0, 0, 0, 255, 255]
  {
    if ip[..12] == [0, 0, 0, 0, 0, 0, 0, 0, 0, 0, 255, 255] {
      assert forall i :: 0 <= i < 12 ==> ip[i] == ip[..12][i];
    }
  }

  /** The address in plain terms: an IPv4 upstream, whose 16 bytes are ten zeros, two bytes
      255 and the four of the address, is asked for by its four bytes; every other IP address
      by its sixteen; a name as it is, with its length in one byte. */
  lemma {:induction false} AddressRecovered(input: bytes, writes: nat, c: Credentials, t: Target)
    requires t.Valid() && Requested(Dial(Opened(input, writes), c, t))
    ensures |input| >= 2 && t.Target? && ServerReads(Dial(Opened(input, writes), c, t).link.sent, input[1]).Some?
    ensures var request := ServerReads(Dial(Opened(input, writes), c, t).link.sent, input[1]).value.request;
            && t.port == Some(request.port) && 0 <= request.port <= 65535 && request.code == 1
            && match t.host
               case Name(n) => request.address == Domain(n) && |n| <= 255
               case Ip(ip) =>
                 if ip[..12] == [0, 0, 0, 0, 0, 0, 0, 0, 0, 0, 255, 255] then request.address == V4(ip[12..])
                 else request.address == V6(ip)
  {
    hide Dial, ServerReads, Mapped;
    ServerUnderstands(input, writes, c, t);
    SameBytes(Opened(input, writes), c, t);
    SentIsWritten(input, writes, c, t);
    if t.host.Ip? {
      MappedMeaning(t.host.address);
    }
  }

  /** The request itself, byte by byte: for an IPv4 upstream, for any other IP address, and
      for a name. */
  lemma {:induction false} RequestForIPv4(ip: bytes, a: bytes, port: int)
    requires |a| == 4 && ip == [0, 0, 0, 0, 0, 0, 0, 0, 0, 0, 255, 255] + a && 0 <= port < 65536
    ensures Request(Ip(ip), port) == [5, 1, 0] + [1] + a + [port / 256, port % 256]
  {
    assert ip[..12] == [0, 0, 0, 0, 0, 0, 0, 0, 0, 0, 255, 255] && ip[12..] == a;
    MappedMeaning(ip);
    hide Mapped;
    SumAssociates([5, 1, 0], [1], a);
  }

  lemma {:induction false} RequestForIPv6(ip: bytes, port: int)
    requires |ip| == 16 && ip[..12] != [0, 0, 0, 0, 0, 0, 0, 0, 0, 0, 255, 255] && 0 <= port < 65536
    ensures Request(Ip(ip), port) == [5, 1, 0] + [4] + ip + [port / 256, port % 256]
  {
    MappedMeaning(ip);
    hide Mapped;
    SumAssociates([5, 1, 0], [4], ip);
  }

  lemma {:induction false} RequestForName(n: bytes, port: int)
    requires |n| <= 255 && 0 <= port < 65536
    ensures Request(Name(n), port) == [5, 1, 0] + [3, |n|] + n + [port / 256, port % 256]
  {
    SumAssociates([5, 1, 0], [3, |n|], n);
  }

  /** A target that can be asked for, and credentials that can be sent, in plain terms. */
  lemma {:induction false} LimitsMeaning(c: Credentials, t: Target)
    ensures Unusable(t).None? <==>
            t.Target? && t.port.Some? && 0 <= t.port.value <= 65535 && (t.host.Name? ==> |t.host.name| <= 255)
    ensures c.Fit() <==> |c.username| <= 255 && |c.password| <= 255
    ensures c.HasAuth() <==> |c.username| > 0
  {
  }

  /** Once the request is out, the credentials have been sent if and only if the server
      chose method 2; it may choose method 0 even when only method 2 was offered. */
  lemma {:induction false} CredentialsSentIffChosen(input: bytes, writes: nat, c: Credentials, t: Target)
    requires t.Valid() && Requested(Dial(Opened(input, writes), c, t))
    ensures |input| >= 2 && Unusable(t).None? && (input[1] == 2 ==> c.Fit())
    ensures var sent, request := Dial(Opened(input, writes), c, t).link.sent, Request(t.host, t.port.value);
            if input[1] == 2 then sent == Greeting(c.HasAuth()) + AuthMessage(c) + request
            else sent == Greeting(c.HasAuth()) + request
    ensures input[1] == 2 <==>
            Dial(Opened(input, writes), c, t).link.sent != Greeting(c.HasAuth()) + Request(t.host, t.port.value)
  {
    hide Negotiate, Request;
    SameBytes(Opened(input, writes), c, t);
    SentIsWritten(input, writes, c, t);
    var request := Request(t.host, t.port.value);
    assert [] + request == request;
    if input[1] == 2 {
      SumAssociates(Greeting(c.HasAuth()), AuthMessage(c), request);
      assert |Greeting(c.HasAuth()) + AuthMessage(c) + request| > |Greeting(c.HasAuth()) + request|;
    }
  }

  /** The probe and the relay write the same bytes to every server, and the probe accepts
      a proxy just when the relay does or fails only at the bound address. */
  lemma {:induction false} SameBytes(l: Link, c: Credentials, t: Target)
    requires l.Valid() && t.Valid()
    ensures var probe, relay := Negotiate(l, c, t), Dial(l, c, t);
            && probe.link.sent == relay.link.sent && probe.link.pos <= relay.link.pos
            && (probe.Went? <==> relay.Went? || relay.why in {NoBoundAddress, BadAddressType})
            && (Requested(probe) <==> Requested(relay))
  {
    hide Greet, UseMethod, Connect;
    FailuresBeforeTheReply(l, c, t);
  }

  /** No step before the bound address fails as one at the bound address does. */
  lemma {:induction false} FailuresBeforeTheReply(l: Link, c: Credentials, t: Target)
    requires l.Valid() && t.Valid()
    ensures var p := Negotiate(l, c, t); p.Failed? ==> p.why !in {NoBoundAddress, BadAddressType}
  {
    hide Greeting, AuthMessage, Request;
  }

  // ---- why a dialogue fails ----

  /** Every failure in plain terms: the bytes of the server, the limits or the writes that
      are to blame. */
  ghost predicate Explained(why: Failure, input: bytes, writes: nat, c: Credentials, t: Target) {
    match why
    case GreetingNotSent => writes == 0
    case NoGreetingReply => |input| < 2
    case BadVersion => |input| >= 2 && input[0] != 5
    case AuthRequired => |input| >= 2 && input[1] == 2 && c.username == []
    case CredentialsTooLong => |input| >= 2 && input[1] == 2 && (|c.username| > 255 || |c.password| > 255)
    case AuthNotSent => |input| >= 2 && input[1] == 2 && writes == 1
    case NoAuthReply => 2 <= |input| < 4 && input[1] == 2
    case AuthRejected => |input| >= 4 && input[1] == 2 && input[3] != 0
    case BadMethod(code) => |input| >= 2 && code == input[1] && code != 0 && code != 2
    case BadTarget => t.Malformed?
    case BadPort => t.Target? && (t.port.None? || t.port.value < 0 || t.port.value > 65535)
    case NameTooLong => t.Target? && t.host.Name? && |t.host.name| > 255
    case RequestNotSent => |input| >= 2 && writes == if input[1] == 2 then 2 else 1
    case NoConnectReply => 2 <= |input| < if input[1] == 2 then 8 else 6
    case Refused(code) =>
      |input| >= 6 && code != 0 && (if input[1] == 2 then |input| >= 8 && code == input[5] else code == input[3])
    case NoBoundAddress => |input| >= 6 && (if input[1] == 2 then |input| == 8 && input[7] == 3
                                            else |input| == 6 && input[5] == 3)
    case BadAddressType => |input| >= 6 && (if input[1] == 2 then |input| >= 8 && input[7] !in {1, 3, 4}
                                            else input[5] !in {1, 3, 4})
  }

  lemma {:induction false} GreetExplained(input: bytes, writes: nat, c: Credentials, t: Target)
    ensures var g := Greet(Opened(input, writes), c.HasAuth());
            if g.Failed? then Explained(g.why, input, writes, c, t)
            else |input| >= 2 && g.got[1] == input[1] && g.link.pos == 2 && g.link.writes == writes - 1
                 && g.link.input == input
  {
    hide Greeting;
  }

  lemma {:induction false} MethodExplained(l: Link, writes: nat, c: Credentials, t: Target)
    requires l.Valid() && |l.input| >= 2 && l.pos == 2 && writes == l.writes + 1
    ensures var u := UseMethod(l, c, l.input[1]);
            if u.Failed? then Explained(u.why, l.input, writes, c, t)
            else if l.input[1] == 2 then
              |l.input| >= 4 && u.link.pos == 4 && u.link.writes == writes - 2 && u.link.input == l.input
            else u.link == l && l.input[1] == 0
  {
    hide AuthMessage;
  }

  lemma {:induction false} ConnectExplained(l: Link, writes: nat, c: Credentials, t: Target)
    requires l.Valid() && t.Valid() && |l.input| >= 2
    requires if l.input[1] == 2 then l.pos == 4 && l.writes == writes - 2 else l.pos == 2 && l.writes == writes - 1
    ensures var p := Connect(l, t);
            if p.Failed? then Explained(p.why, l.input, writes, c, t)
            else && p.link.pos == l.pos + 4 && p.link.input == l.input
                 && |l.input| >= l.pos + 4 && p.got[3] == l.input[l.pos + 3]
  {
    hide Request;
    if Unusable(t).None? && l.writes > 0 && |l.input| >= l.pos + 4 {
      assert l.input[l.pos..l.pos + 4][1] == l.input[l.pos + 1];
      assert l.input[l.pos..l.pos + 4][3] == l.input[l.pos + 3];
    }
  }

  lemma {:induction false} BoundExplained(l: Link, writes: nat, c: Credentials, t: Target)
    requires l.Valid() && |l.input| >= 6 && l.pos == if l.input[1] == 2 then 8 else 6
    ensures var p := SkipBound(l, l.input[l.pos - 1]); p.Failed? ==> Explained(p.why, l.input, writes, c, t)
  {
  }

  /** Whenever a dial, or a probe, fails, the failure it reports is the true reason. */
  lemma {:induction false} FailuresExplained(input: bytes, writes: nat, c: Credentials, t: Target)
    requires t.Valid()
    ensures var p := Dial(Opened(input, writes), c, t); p.Failed? ==> Explained(p.why, input, writes, c, t)
    ensures var p := Negotiate(Opened(input, writes), c, t); p.Failed? ==> Explained(p.why, input, writes, c, t)
  {
    hide Greet, UseMethod, Connect, SkipBound, Explained;
    GreetExplained(input, writes, c, t);
    var g := Greet(Opened(input, writes), c.HasAuth());
    if g.Went? {
      MethodExplained(g.link, writes, c, t);
      var u := UseMethod(g.link, c, g.got[1]);
      if u.Went? {
        ConnectExplained(u.link, writes, c, t);
        var p := Connect(u.link, t);
        if p.Went? {
          BoundExplained(p.link, writes, c, t);
        }
      }
    }
  }

  // ---- what is read ----

  /** What follows the method choice and, if it was asked for, the login reply. */
  function AfterLogin(input: bytes, hasAuth: bool): Option<bytes> {
    if |input| < 2 || input[0] != 5 then None
    else if input[1] == 0 then Some(input[2..])
    else if input[1] == 2 && hasAuth && |input| >= 4 && input[3] == 0 then Some(input[4..])
    else None
  }

  /** How many messages the login takes, given what the server chooses. */
  function LoginWrites(input: bytes): nat {
    if |input| >= 2 && input[1] == 2 then 2 else 1
  }

  /** The client's own side is in order: the writes succeed, and what has to be sent fits. */
  predicate CanSend(input: bytes, writes: nat, c: Credentials, t: Target) {
    writes > LoginWrites(input) && (LoginWrites(input) == 2 ==> c.Fit()) && Unusable(t).None?
  }

  lemma {:induction false} LoginReads(input: bytes, writes: nat, c: Credentials)
    ensures var g, r := Greet(Opened(input, writes), c.HasAuth()), AfterLogin(input, c.HasAuth());
            if g.Failed? then writes == 0 || r.None?
            else
              var u := UseMethod(g.link, c, g.got[1]);
              && (u.Went? <==> r.Some? && writes >= LoginWrites(input) && (LoginWrites(input) == 2 ==> c.Fit()))
              && (u.Went? ==> u.link.Unread() == r.value && u.link.writes == writes - LoginWrites(input))
  {
    hide AuthMessage, Greeting;
  }

  lemma {:induction false} ConnectReads(l: Link, t: Target)
    requires l.Valid() && t.Valid()
    ensures var p, r := Connect(l, t), l.Unread();
            && (p.Went? <==> l.writes > 0 && Unusable(t).None? && |r| >= 4 && r[1] == 0)
            && (p.Went? ==> p.got == r[..4] && p.link.Unread() == r[4..])
  {
    hide Request;
    if |l.Unread()| >= 4 {
      assert l.input[l.pos..l.pos + 4] == l.Unread()[..4] && l.input[l.pos + 4..] == l.Unread()[4..];
    }
  }

  /** Exactly when the probe succeeds, and where it stops reading. */
  lemma {:induction false} ProbeReads(input: bytes, writes: nat, c: Credentials, t: Target)
    requires t.Valid()
    ensures var p, r := Negotiate(Opened(input, writes), c, t), AfterLogin(input, c.HasAuth());
            && (p.Went? <==> CanSend(input, writes, c, t) && r.Some? && |r.value| >= 4 && r.value[1] == 0)
            && (p.Went? ==> p.got == r.value[..4] && p.link.Unread() == r.value[4..])
  {
    hide Greet, UseMethod, Connect, AfterLogin;
    LoginReads(input, writes, c);
    var g := Greet(Opened(input, writes), c.HasAuth());
    if g.Went? && UseMethod(g.link, c, g.got[1]).Went? {
      ConnectReads(UseMethod(g.link, c, g.got[1]).link, t);
    }
  }

  /** A success reply as far as the relay looks at it. */
  predicate LooksComplete(r: bytes) {
    |r| >= 4 && r[1] == 0 && (r[3] in {1, 4} || (r[3] == 3 && |r| >= 5))
  }

  /** How many bytes of a message follow its first four. */
  function AddressLength(s: bytes): nat
    requires |s| >= 4 && (s[3] == 3 ==> |s| >= 5)
  {
    if s[3] == 1 then 6 else if s[3] == 4 then 18 else if s[3] == 3 then 3 + s[4] as int else 0
  }

  /** Exactly when the relay succeeds, and where it stops reading. */
  lemma {:induction false} RelayReads(input: bytes, writes: nat, c: Credentials, t: Target)
    requires t.Valid()
    ensures var p, r := Dial(Opened(input, writes), c, t), AfterLogin(input, c.HasAuth());
            && (p.Went? <==> CanSend(input, writes, c, t) && r.Some? && LooksComplete(r.value))
            && (p.Went? ==> p.link.Unread() == if |r.value| < 4 + AddressLength(r.value) then []
                                               else r.value[4 + AddressLength(r.value)..])
  {
    hide Negotiate, AfterLogin, SkipBound, CanSend;
    ProbeReads(input, writes, c, t);
    var p := Negotiate(Opened(input, writes), c, t);
    if p.Went? {
      SkipsBound(p.link, AfterLogin(input, c.HasAuth()).value);
    }
  }

  lemma {:induction false} SkipsBound(l: Link, r: bytes)
    requires l.Valid() && |r| >= 4 && r[1] == 0 && l.Unread() == r[4..]
    ensures var p := SkipBound(l, r[3]);
            && (p.Went? <==> LooksComplete(r))
            && (p.Went? ==> p.link.Unread() == if |r| < 4 + AddressLength(r) then [] else r[4 + AddressLength(r)..])
  {
    if LooksComplete(r) {
      if r[3] == 3 {
        assert l.Unread()[0] == l.input[l.pos];
      }
      if |r| >= 4 + AddressLength(r) {
        assert l.Unread()[AddressLength(r)..] == l.input[l.pos + AddressLength(r)..];
      }
    }
  }

  lemma {:induction false} MessageLength(s: bytes)
    requires ParseMessage(s).Some?
    ensures |s| >= 5 && s[3] in {1, 3, 4} && |s| >= 4 + AddressLength(s)
    ensures ParseMessage(s).value.rest == s[4 + AddressLength(s)..]
    ensures ParseMessage(s).value.value.code == s[1]
  {
  }

  /** A complete success reply follows the login. */
  predicate Granted(input: bytes, c: Credentials) {
    var r := AfterLogin(input, c.HasAuth());
    r.Some? && ParseMessage(r.value).Some? && ParseMessage(r.value).value.value.code == 0
  }

  /** The first bytes of the tunnel. */
  function Tunnel(input: bytes, c: Credentials): bytes
    requires Granted(input, c)
  {
    ParseMessage(AfterLogin(input, c.HasAuth()).value).value.rest
  }

  /** Reply framing: whichever of the three address types a success reply has, the relay
      consumes the handshake and not one byte more. */
  lemma {:induction false} RelayLeavesTunnel(input: bytes, writes: nat, c: Credentials, t: Target)
    requires t.Valid() && CanSend(input, writes, c, t) && Granted(input, c)
    ensures var p := Dial(Opened(input, writes), c, t);
            p.Went? && p.link.Unread() == Tunnel(input, c)
  {
    hide Dial, AfterLogin, ParseMessage, CanSend;
    RelayReads(input, writes, c, t);
    MessageLength(AfterLogin(input, c.HasAuth()).value);
  }

  /** The probe stops four bytes into the same reply: the bytes of the bound address, at
      least three of them, are left in front of the tunnel. */
  lemma {:induction false} ProbeLeavesBoundAddress(input: bytes, writes: nat, c: Credentials, t: Target)
    requires t.Valid() && CanSend(input, writes, c, t) && Granted(input, c)
    ensures var p, r := Negotiate(Opened(input, writes), c, t), AfterLogin(input, c.HasAuth()).value;
            && p.Went? && |r| >= 4 + AddressLength(r) && AddressLength(r) >= 3
            && p.link.Unread() == r[4..4 + AddressLength(r)] + Tunnel(input, c)
  {
    hide Negotiate, AfterLogin, ParseMessage, CanSend;
    ProbeReads(input, writes, c, t);
    MessageLength(AfterLogin(input, c.HasAuth()).value);
  }

  /** The relay looks at neither the version nor the reserved byte of the reply, and does
      not notice when it ends early: exactly in these cases its success is not that of a
      complete success reply. */
  lemma {:induction false} SuccessIsGrantedIff(input: bytes, writes: nat, c: Credentials, t: Target)
    requires t.Valid() && Dial(Opened(input, writes), c, t).Went?
    ensures AfterLogin(input, c.HasAuth()).Some? && LooksComplete(AfterLogin(input, c.HasAuth()).value)
    ensures var r := AfterLogin(input, c.HasAuth()).value;
            Granted(input, c) <==> r[0] == 5 && r[2] == 0 && |r| >= 4 + AddressLength(r)
  {
    hide Dial, AfterLogin, ParseMessage, CanSend;
    RelayReads(input, writes, c, t);
    ParsedIff(AfterLogin(input, c.HasAuth()).value);
  }

  lemma {:induction false} ParsedIff(r: bytes)
    requires LooksComplete(r)
    ensures ParseMessage(r).Some? <==> r[0] == 5 && r[2] == 0 && |r| >= 4 + AddressLength(r)
    ensures ParseMessage(r).Some? ==> ParseMessage(r).value.value.code == 0
  {
  }

  /** What a client that follows the two documents accepts from the server, having offered
      one method: that method (section 3 of RFC 1928), a login reply of version 1 and status
      0 if the method is 2 (section 2 of RFC 1929), and a complete success reply. What it
      yields is the tunnel. */
  function ParseGrant(input: bytes, offered: byte): Option<bytes> {
    match ParseBytes(input, 2)
    case None => None
    case Some(choice) =>
      if choice.value != [5, offered] then None
      else if offered != 2 then ParseSuccess(choice.rest)
      else
        match ParseBytes(choice.rest, 2)
        case None => None
        case Some(login) => if login.value != [1, 0] then None else ParseSuccess(login.rest)
  }

  function ParseSuccess(s: bytes): Option<bytes> {
    match ParseMessage(s)
    case None => None
    case Some(m) => if m.value.code == 0 then Some(m.rest) else None
  }

  function Offered(c: Credentials): byte {
    if c.HasAuth() then 2 else 0
  }

  lemma {:induction false} GrantMeaning(input: bytes, c: Credentials)
    ensures ParseGrant(input, Offered(c)).Some? <==>
            && Granted(input, c) && |input| >= 2 && input[1] == Offered(c)
            && (Offered(c) == 2 ==> |input| >= 3 && input[2] == 1)
    ensures ParseGrant(input, Offered(c)).Some? ==> ParseGrant(input, Offered(c)).value == Tunnel(input, c)
  {
    hide ParseMessage;
  }

  /** For every server and every dial that succeeds: a client that follows the documents
      would have accepted the same bytes if and only if the server chose the method offered,
      its login reply has version 1, its reply has version 5 and reserved byte 0, and the
      bound address is complete. */
  lemma {:induction false} SuccessConformsIff(input: bytes, writes: nat, c: Credentials, t: Target)
    requires t.Valid() && Dial(Opened(input, writes), c, t).Went?
    ensures |input| >= 2 && (input[1] == 2 ==> |input| >= 4)
    ensures AfterLogin(input, c.HasAuth()).Some? && LooksComplete(AfterLogin(input, c.HasAuth()).value)
    ensures var r := AfterLogin(input, c.HasAuth()).value;
            ParseGrant(input, Offered(c)).Some? <==>
              && input[1] == Offered(c) && (input[1] == 2 ==> input[2] == 1)
              && r[0] == 5 && r[2] == 0 && |r| >= 4 + AddressLength(r)
  {
    hide Dial, ParseGrant, ParseMessage, Granted;
    SuccessIsGrantedIff(input, writes, c, t);
    GrantMeaning(input, c);
  }

  /** Nothing the documents allow is refused: what such a client accepts the relay accepts,
      and it leaves the same tunnel. */
  lemma {:induction false} ConformingServerAccepted(input: bytes, writes: nat, c: Credentials, t: Target)
    requires t.Valid() && CanSend(input, writes, c, t) && ParseGrant(input, Offered(c)).Some?
    ensures var p := Dial(Opened(input, writes), c, t);
            p.Went? && p.link.Unread() == ParseGrant(input, Offered(c)).value
  {
    hide Dial, ParseGrant, Granted, Tunnel, CanSend;
    GrantMeaning(input, c);
    RelayLeavesTunnel(input, writes, c, t);
  }

  // ---- servers that are accepted but do not conform ----

  /** A reply cut off within its bound address passes for a complete one: no message can
      be parsed, but the relay reports success over a connection with nothing to read. */
  lemma {:induction false} TruncatedReplySucceeds(input: bytes, writes: nat, c: Credentials, t: Target)
    requires t.Valid() && CanSend(input, writes, c, t)
    requires var r := AfterLogin(input, c.HasAuth());
             r.Some? && LooksComplete(r.value) && |r.value| < 4 + AddressLength(r.value)
    ensures !Granted(input, c)
    ensures var p := Dial(Opened(input, writes), c, t); p.Went? && p.link.Unread() == []
  {
    hide Dial, AfterLogin, ParseMessage, CanSend;
    RelayReads(input, writes, c, t);
    if Granted(input, c) {
      MessageLength(AfterLogin(input, c.HasAuth()).value);
    }
  }

  const NO_LOGIN := Credentials([], [])
  const SOME_LOGIN := Credentials([1], [2])

  /** A complete reply of version 0 with reserved byte 7. */
  const WRONG_REPLY: bytes := [5, 0] + [0, 0, 7, 1, 1, 2, 3, 4, 0, 80]

  lemma {:induction false} WrongReplySucceeds(t: Target)
    requires t.Valid() && Unusable(t).None?
    ensures Dial(Opened(WRONG_REPLY, 2), NO_LOGIN, t).Went? && !Granted(WRONG_REPLY, NO_LOGIN)
  {
    hide Dial, ParseMessage;
    RelayReads(WRONG_REPLY, 2, NO_LOGIN, t);
    assert WRONG_REPLY[2..] == [0, 0, 7, 1, 1, 2, 3, 4, 0, 80];
    SuccessIsGrantedIff(WRONG_REPLY, 2, NO_LOGIN, t);
  }

  /** A login reply of version 9. */
  const WRONG_LOGIN: bytes := [5, 2, 9, 0] + [5, 0, 0, 1, 1, 2, 3, 4, 0, 80]

  lemma {:induction false} WrongLoginSucceeds(t: Target)
    requires t.Valid() && Unusable(t).None?
    ensures Dial(Opened(WRONG_LOGIN, 3), SOME_LOGIN, t).Went? && Granted(WRONG_LOGIN, SOME_LOGIN)
    ensures ParseGrant(WRONG_LOGIN, 2).None?
  {
    hide Dial, ParseMessage, ParseGrant;
    RelayReads(WRONG_LOGIN, 3, SOME_LOGIN, t);
    assert WRONG_LOGIN[4..] == [5, 0, 0, 1, 1, 2, 3, 4, 0, 80];
    SuccessIsGrantedIff(WRONG_LOGIN, 3, SOME_LOGIN, t);
    SuccessConformsIff(WRONG_LOGIN, 3, SOME_LOGIN, t);
  }

  /** A server that answers method 0 to a client that offered method 2 only. */
  const UNOFFERED: bytes := [5, 0] + [5, 0, 0, 1, 1, 2, 3, 4, 0, 80]

  /** The dial goes on and succeeds, with the login never sent. */
  lemma {:induction false} UnofferedMethodSucceeds(t: Target)
    requires t.Valid() && Unusable(t).None?
    ensures var p := Dial(Opened(UNOFFERED, 2), SOME_LOGIN, t);
            p.Went? && p.link.sent == Greeting(true) + Request(t.host, t.port.value)
    ensures Negotiate(Opened(UNOFFERED, 2), SOME_LOGIN, t).Went?
    ensures ParseGrant(UNOFFERED, 2).None?
  {
    hide Dial, Negotiate, ParseMessage, ParseGrant, Request;
    RelayReads(UNOFFERED, 2, SOME_LOGIN, t);
    ProbeReads(UNOFFERED, 2, SOME_LOGIN, t);
    assert UNOFFERED[2..] == [5, 0, 0, 1, 1, 2, 3, 4, 0, 80];
    CredentialsSentIffChosen(UNOFFERED, 2, SOME_LOGIN, t);
    SuccessConformsIff(UNOFFERED, 2, SOME_LOGIN, t);
  }
}
