/** The SOCKS5 client of the relay and that of the proxy probe: what each writes to and
    reads from a connection, against the wire format of RFC 1928 and RFC 1929. */
module Socks5 {
  import opened Common

  type bytes = seq<byte>

  /** A host as it comes out of address parsing: a 16-byte IP address, or a name. */
  datatype Host = Ip(address: bytes) | Name(name: bytes)
  {
    predicate Valid() {
      Ip? ==> |address| == 16
    }
  }

  /** A dial target after splitting; port None when it is no number. */
  datatype Target = Malformed | Target(host: Host, port: Option<int>)
  {
    predicate Valid() {
      Target? ==> host.Valid()
    }
  }

  datatype Credentials = Credentials(username: bytes, password: bytes)
  {
    predicate HasAuth() {
      username != []
    }

    predicate Fit() {
      |username| <= 255 && |password| <= 255
    }
  }

  datatype Failure =
    | GreetingNotSent | NoGreetingReply | BadVersion
    | AuthRequired | CredentialsTooLong | AuthNotSent | NoAuthReply | AuthRejected
    | BadMethod(code: byte)
    | BadTarget | BadPort | NameTooLong
    | RequestNotSent | NoConnectReply | Refused(code: byte)
    | NoBoundAddress | BadAddressType

  /** A connection as a value: all the bytes the server will ever send and how many of
      them have been read, what has been written, and how many writes will succeed. */
  datatype Link = Link(input: bytes, pos: nat, sent: bytes, writes: nat)
  {
    predicate Valid() {
      pos <= |input|
    }

    function Unread(): bytes
      requires Valid()
    {
      input[pos..]
    }
  }

  datatype Progress = Failed(link: Link, why: Failure) | Went(link: Link, got: bytes)

  function Send(l: Link, b: bytes, why: Failure): (p: Progress)
    requires l.Valid()
    ensures p.link.Valid() && p.link.input == l.input
  {
    if l.writes == 0 then Failed(l, why) else Went(l.(sent := l.sent + b, writes := l.writes - 1), [])
  }

  /** Reads exactly n bytes, or all there are and fails. */
  function Read(l: Link, n: nat, why: Failure): (p: Progress)
    requires l.Valid()
    ensures p.link.Valid() && p.link.input == l.input
    ensures p.Went? ==> |p.got| == n
  {
    if |l.input| - l.pos >= n then Went(l.(pos := l.pos + n), l.input[l.pos..l.pos + n])
    else Failed(l.(pos := |l.input|), why)
  }

  /** Discards up to n bytes. */
  function Skip(l: Link, n: nat): (l': Link)
    requires l.Valid()
    ensures l'.Valid() && l'.input == l.input
  {
    l.(pos := if |l.input| - l.pos >= n then l.pos + n else |l.input|)
  }

  // ---- the bytes the client writes ----

  function Greeting(hasAuth: bool): bytes {
    [5, 1, if hasAuth then 2 else 0]
  }

  function AuthMessage(c: Credentials): bytes
    requires c.Fit()
  {
    [1, |c.username|] + c.username + [|c.password|] + c.password
  }

  /** An IPv4 address mapped into IPv6. */
  predicate Mapped(ip: bytes) {
    |ip| == 16 && (forall i :: 0 <= i < 10 ==> ip[i] == 0) && ip[10] == 255 && ip[11] == 255
  }

  function AddressField(h: Host): bytes
    requires h.Valid() && (h.Name? ==> |h.name| <= 255)
  {
    match h
    case Ip(ip) => if Mapped(ip) then [1] + ip[12..] else [4] + ip
    case Name(n) => [3, |n|] + n
  }

  function PortField(port: int): bytes
    requires 0 <= port < 65536
  {
    [port / 256, port % 256]
  }

  function Request(h: Host, port: int): bytes
    requires h.Valid() && (h.Name? ==> |h.name| <= 255) && 0 <= port < 65536
  {
    [5, 1, 0] + AddressField(h) + PortField(port)
  }

  // ---- the dialogue ----

  /** Greets and reads the two bytes that choose a method. */
  function Greet(l: Link, hasAuth: bool): (p: Progress)
    requires l.Valid()
    ensures p.link.Valid() && p.link.input == l.input && (p.Went? ==> |p.got| == 2)
  {
    match Send(l, Greeting(hasAuth), GreetingNotSent)
    case Failed(_, _) => Failed(l, GreetingNotSent)
    case Went(l1, _) =>
      var p := Read(l1, 2, NoGreetingReply);
      if p.Went? && p.got[0] != 5 then Failed(p.link, BadVersion) else p
  }

  function Authenticate(l: Link, c: Credentials): (p: Progress)
    requires l.Valid()
    ensures p.link.Valid() && p.link.input == l.input
  {
    if !c.Fit() then Failed(l, CredentialsTooLong)
    else
      match Send(l, AuthMessage(c), AuthNotSent)
      case Failed(_, _) => Failed(l, AuthNotSent)
      case Went(l1, _) =>
        var p := Read(l1, 2, NoAuthReply);
        if p.Went? && p.got[1] != 0 then Failed(p.link, AuthRejected) else p
  }

  /** Does what the chosen method asks for. */
  function UseMethod(l: Link, c: Credentials, code: byte): (p: Progress)
    requires l.Valid()
    ensures p.link.Valid() && p.link.input == l.input
  {
    if code == 0 then Went(l, [])
    else if code != 2 then Failed(l, BadMethod(code))
    else if !c.HasAuth() then Failed(l, AuthRequired)
    else Authenticate(l, c)
  }

  /** Why no request can be sent for a target, if so. */
  function Unusable(t: Target): Option<Failure> {
    if t.Malformed? then Some(BadTarget)
    else if t.port.None? || t.port.value < 0 || t.port.value > 65535 then Some(BadPort)
    else if t.host.Name? && |t.host.name| > 255 then Some(NameTooLong)
    else None
  }

  /** Sends the request and reads the first four bytes of the reply. */
  function Connect(l: Link, t: Target): (p: Progress)
    requires l.Valid() && t.Valid()
    ensures p.link.Valid() && p.link.input == l.input && (p.Went? ==> |p.got| == 4)
  {
    if Unusable(t).Some? then Failed(l, Unusable(t).value)
    else
      match Send(l, Request(t.host, t.port.value), RequestNotSent)
      case Failed(_, _) => Failed(l, RequestNotSent)
      case Went(l1, _) =>
        var p := Read(l1, 4, NoConnectReply);
        if p.Went? && p.got[1] != 0 then Failed(p.link, Refused(p.got[1])) else p
  }

  /** The part both clients have in common: all that the probe does. */
  function Negotiate(l: Link, c: Credentials, t: Target): (p: Progress)
    requires l.Valid() && t.Valid()
    ensures p.link.Valid() && p.link.input == l.input && (p.Went? ==> |p.got| == 4)
  {
    match Greet(l, c.HasAuth())
    case Failed(l1, why) => Failed(l1, why)
    case Went(l1, choice) =>
      match UseMethod(l1, c, choice[1])
      case Failed(l2, why) => Failed(l2, why)
      case Went(l2, _) => Connect(l2, t)
  }

  /** Skips the bound address; only the length of a name has to be there. */
  function SkipBound(l: Link, kind: byte): (p: Progress)
    requires l.Valid()
    ensures p.link.Valid() && p.link.input == l.input
  {
    if kind == 1 then Went(Skip(l, 6), [])
    else if kind == 4 then Went(Skip(l, 18), [])
    else if kind != 3 then Failed(l, BadAddressType)
    else
      match Read(l, 1, NoBoundAddress)
      case Failed(l1, why) => Failed(l1, why)
      case Went(l1, n) => Went(Skip(l1, n[0] as int + 2), [])
  }

  /** The dialogue of the relay. */
  function Dial(l: Link, c: Credentials, t: Target): (p: Progress)
    requires l.Valid() && t.Valid()
    ensures p.link.Valid() && p.link.input == l.input
  {
    match Negotiate(l, c, t)
    case Failed(l1, why) => Failed(l1, why)
    case Went(l1, reply) => SkipBound(l1, reply[3])
  }

  // ---- the code ----

  class Conn {
    var input: bytes
    var pos: nat
    var sent: bytes
    var writes: nat

    constructor (input: bytes, writes: nat)
      ensures View() == Link(input, 0, [], writes)
    {
      this.input, pos, sent, this.writes := input, 0, [], writes;
    }

    function View(): Link
      reads this
    {
      Link(input, pos, sent, writes)
    }

    method Write(b: bytes) returns (ok: bool)
      modifies this
      requires View().Valid()
      ensures var l := old(View());
              ok == (l.writes > 0) && View() == if ok then l.(sent := l.sent + b, writes := l.writes - 1) else l
    {
      ok := writes > 0;
      if ok {
        sent := sent + b;
        writes := writes - 1;
      }
    }

    method ReadFull(n: nat) returns (ok: bool, buf: bytes)
      modifies this
      requires View().Valid()
      ensures var l := old(View());
              && ok == (|l.input| - l.pos >= n)
              && View() == l.(pos := if ok then l.pos + n else |l.input|)
              && (ok ==> buf == l.input[l.pos..l.pos + n])
    {
      ok := |input| - pos >= n;
      if ok {
        buf := input[pos..pos + n];
        pos := pos + n;
      } else {
        buf := input[pos..];
        pos := |input|;
      }
    }

    method Discard(n: nat)
      modifies this
      requires View().Valid()
      ensures View() == Skip(old(View()), n)
    {
      pos := if |input| - pos >= n then pos + n else |input|;
    }
  }

  /** How a dialogue ended on a connection, as a failure if it did not succeed. */
  ghost predicate Ended(conn: Conn, why: Option<Failure>, p: Progress)
    reads conn
  {
    conn.View() == p.link && why == if p.Failed? then Some(p.why) else None
  }

  method SocksAuth(conn: Conn, username: bytes, password: bytes) returns (why: Option<Failure>)
    requires conn.View().Valid()
    modifies conn
    ensures Ended(conn, why, Authenticate(old(conn.View()), Credentials(username, password)))
  {
    if |username| > 255 || |password| > 255 {
      return Some(CredentialsTooLong);
    }
    var msg: bytes := [1, |username|];
    msg := msg + username;
    msg := msg + [|password|];
    msg := msg + password;
    assert msg == AuthMessage(Credentials(username, password));
    var ok := conn.Write(msg);
    if !ok {
      return Some(AuthNotSent);
    }
    var reply;
    ok, reply := conn.ReadFull(2);
    if !ok {
      return Some(NoAuthReply);
    }
    if reply[1] != 0 {
      return Some(AuthRejected);
    }
    return None;
  }

  /** Both dialers build the request this way. */
  method BuildRequest(host: Host, port: int) returns (req: bytes)
    requires host.Valid() && (host.Name? ==> |host.name| <= 255) && 0 <= port < 65536
    ensures req == Request(host, port)
  {
    hide Mapped;
    req := [5, 1, 0];
    match host {
      case Ip(ip) =>
        var ip4 := To4(ip);
        if ip4.Some? {
          req := req + ([1] + ip4.value);
        } else {
          req := req + ([4] + ip);
        }
      case Name(name) =>
        req := req + ([3, |name|] + name);
    }
    req := req + [port / 256, port % 256];
  }

  /** The four bytes of a mapped IPv4 address. */
  method To4(ip: bytes) returns (ip4: Option<bytes>)
    requires |ip| == 16
    ensures ip4 == if Mapped(ip) then Some(ip[12..]) else None
  {
    for i := 0 to 10
      invariant forall j :: 0 <= j < i ==> ip[j] == 0
    {
      if ip[i] != 0 {
        return None;
      }
    }
    if ip[10] == 255 && ip[11] == 255 {
      return Some(ip[12..]);
    }
    return None;
  }

  /** The start of both dialogues: the greeting, and the method the server chooses. */
  method Hello(conn: Conn, hasAuth: bool) returns (why: Option<Failure>, code: byte)
    requires conn.View().Valid()
    modifies conn
    ensures Ended(conn, why, Greet(old(conn.View()), hasAuth))
    ensures why.None? ==> code == Greet(old(conn.View()), hasAuth).got[1]
  {
    code := 0;
    var methods: bytes := [0];
    if hasAuth {
      methods := [2];
    }
    assert [5, |methods|] + methods == Greeting(hasAuth);
    var ok := conn.Write([5, |methods|] + methods);
    if !ok {
      return Some(GreetingNotSent), code;
    }
    var buf;
    ok, buf := conn.ReadFull(2);
    if !ok {
      return Some(NoGreetingReply), code;
    }
    if buf[0] != 5 {
      return Some(BadVersion), code;
    }
    return None, buf[1];
  }

  /** The end of the probe's dialogue, and what the relay does before it skips the bound
      address. */
  method AskFor(conn: Conn, target: Target) returns (why: Option<Failure>, kind: byte)
    requires conn.View().Valid() && target.Valid()
    modifies conn
    ensures Ended(conn, why, Connect(old(conn.View()), target))
    ensures why.None? ==> kind == Connect(old(conn.View()), target).got[3]
  {
    hide Request;
    kind := 0;
    if target.Malformed? {
      return Some(BadTarget), kind;
    }
    if target.port.None? || target.port.value < 0 || target.port.value > 65535 {
      return Some(BadPort), kind;
    }
    if target.host.Name? && |target.host.name| > 255 {
      return Some(NameTooLong), kind;
    }
    var req := BuildRequest(target.host, target.port.value);
    var ok := conn.Write(req);
    if !ok {
      return Some(RequestNotSent), kind;
    }
    var reply;
    ok, reply := conn.ReadFull(4);
    if !ok {
      return Some(NoConnectReply), kind;
    }
    if reply[1] != 0 {
      return Some(Refused(reply[1])), kind;
    }
    return None, reply[3];
  }

  method DialSOCKS5(conn: Conn, target: Target, username: bytes, password: bytes) returns (why: Option<Failure>)
    requires conn.View().Valid() && target.Valid()
    modifies conn
    ensures Ended(conn, why, Dial(old(conn.View()), Credentials(username, password), target))
  {
    hide Greet, Authenticate, Connect;
    var hasAuth := username != [];
    var code, kind;
    why, code := Hello(conn, hasAuth);
    if why.Some? {
      return;
    }
    if code == 0 {
    } else if code == 2 {
      if !hasAuth {
        return Some(AuthRequired);
      }
      why := SocksAuth(conn, username, password);
      if why.Some? {
        return;
      }
    } else {
      return Some(BadMethod(code));
    }
    why, kind := AskFor(conn, target);
    if why.Some? {
      return;
    }
    if kind == 1 {
      conn.Discard(6);
    } else if kind == 4 {
      conn.Discard(18);
    } else if kind == 3 {
      var ok, l := conn.ReadFull(1);
      if !ok {
        return Some(NoBoundAddress);
      }
      conn.Discard(l[0] as int + 2);
    } else {
      return Some(BadAddressType);
    }
    return None;
  }

  method DialSOCKS5Probe(conn: Conn, target: Target, username: bytes, password: bytes) returns (why: Option<Failure>)
    requires conn.View().Valid() && target.Valid()
    modifies conn
    ensures Ended(conn, why, Negotiate(old(conn.View()), Credentials(username, password), target))
  {
    hide Greet, Connect;
    var hasAuth := username != [];
    var code, kind;
    why, code := Hello(conn, hasAuth);
    if why.Some? {
      return;
    }
    if code == 0 {
    } else if code == 2 {
      if !hasAuth {
        return Some(AuthRequired);
      }
      if |username| > 255 || |password| > 255 {
        return Some(CredentialsTooLong);
      }
      var msg: bytes := [1, |username|];
      msg := msg + username;
      msg := msg + [|password|];
      msg := msg + password;
      assert msg == AuthMessage(Credentials(username, password));
      var ok := conn.Write(msg);
      if !ok {
        return Some(AuthNotSent);
      }
      var buf;
      ok, buf := conn.ReadFull(2);
      if !ok {
        return Some(NoAuthReply);
      }
      if buf[1] != 0 {
        return Some(AuthRejected);
      }
    } else {
      return Some(BadMethod(code));
    }
    why, kind := AskFor(conn, target);
  }
}
