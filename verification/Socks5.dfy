// SOCKS5 wire framing (RFC 1928).
module Socks5 {
  import opened Wrappers
  import opened Text

  type Byte = c: char | c as int < 256 witness '\0'

  const VERSION: Byte := 5 as char
  const METHOD_NO_AUTH: Byte := 0 as char
  const METHOD_NO_ACCEPTABLE: Byte := 255 as char
  const COMMAND_CONNECT: Byte := 1 as char
  const ADDRESS_IPV4: Byte := 1 as char
  const ADDRESS_DOMAIN: Byte := 3 as char
  const ADDRESS_IPV6: Byte := 4 as char

  // netip.AddrFrom4(…).String() and netip.AddrFrom16(…).String().
  datatype Library = Library(format4: seq<Byte> -> string, format16: seq<Byte> -> string)

  datatype Error =
    | Truncated
    | UnsupportedVersion
    | NoMethods
    | UnsupportedMethod
    | UnsupportedCommand
    | InvalidReservedByte
    | UnsupportedAddressType
    | EmptyDomain
    | InvalidDomain
    | InvalidPort
    | UnsupportedReply
    | ShortWrite
    | WriteFailed

  datatype Request = Request(command: Byte, host: string, port: nat)

  // ---- Domains ----

  predicate LabelCharacter(c: char) {
    'a' <= c <= 'z' || 'A' <= c <= 'Z' || '0' <= c <= '9' || c == '-'
  }

  predicate LabelForm(l: string) {
    l != [] && l[0] != '-' && forall c :: c in l ==> LabelCharacter(c)
  }

  // Dot-separated labels; every one but the last must not end in a hyphen.
  ghost predicate DomainForm(domain: string) {
    var labels := Split(domain, '.');
    && (forall l :: l in labels ==> LabelForm(l))
    && (forall l :: l in labels[..|labels| - 1] ==> l != [] && l[|l| - 1] != '-')
  }

  // The character at i is allowed given the one before it.
  predicate FitsAt(domain: string, i: nat)
    requires i < |domain|
  {
    var starts := i == 0 || domain[i - 1] == '.';
    if domain[i] == '.' then !starts && domain[i - 1] != '-'
    else LabelCharacter(domain[i]) && (domain[i] == '-' ==> !starts)
  }

  ghost predicate FitsEverywhere(domain: string) {
    domain != [] && domain[|domain| - 1] != '.' && forall i :: 0 <= i < |domain| ==> FitsAt(domain, i)
  }

  lemma {:induction false} FirstLabel(s: string) returns (p: string, rest: string)
    requires '.' in s
    ensures '.' !in p && s == p + "." + rest
  {
    if s[0] == '.' {
      p, rest := "", s[1..];
    } else {
      p, rest := FirstLabel(s[1..]);
      p := [s[0]] + p;
    }
  }

  lemma FitsOneLabel(p: string)
    requires '.' !in p
    ensures FitsEverywhere(p) <==> LabelForm(p)
  {
    if FitsEverywhere(p) {
      forall c | c in p ensures LabelCharacter(c) {
        var i :| 0 <= i < |p| && p[i] == c;
        assert FitsAt(p, i);
      }
      assert FitsAt(p, 0);
    }
  }

  lemma FitsSplit(p: string, rest: string)
    requires '.' !in p
    ensures FitsEverywhere(p + "." + rest) <==> LabelForm(p) && p[|p| - 1] != '-' && FitsEverywhere(rest)
  {
    var s := p + "." + rest;
    FitsOneLabel(p);
    assert forall i :: 0 <= i < |p| ==> FitsAt(s, i) == FitsAt(p, i);
    assert p != [] ==> p[|p| - 1] != '.';
    assert FitsAt(s, |p|) == (p != [] && p[|p| - 1] != '-');
    assert forall i {:trigger FitsAt(rest, i)} :: 0 <= i < |rest| ==> FitsAt(s, |p| + 1 + i) == FitsAt(rest, i);
    if FitsEverywhere(s) {
      assert rest != [] by { assert s[|s| - 1] != '.'; }
    }
    if LabelForm(p) && p[|p| - 1] != '-' && FitsEverywhere(rest) {
      forall i | 0 <= i < |s| ensures FitsAt(s, i) {
        if i > |p| { assert FitsAt(rest, i - |p| - 1); }
      }
    }
  }

  lemma LabelNotEmpty(l: string)
    ensures LabelForm(l) ==> l != []
  {}

  lemma FormSplit(p: string, rest: string)
    requires '.' !in p
    ensures DomainForm(p + "." + rest) <==> LabelForm(p) && p[|p| - 1] != '-' && DomainForm(rest)
  {
    hide LabelForm;
    SplitCons(p, rest, '.');
    var more := Split(rest, '.');
    var labels := [p] + more;
    var early := labels[..|labels| - 1];
    assert early == [p] + more[..|more| - 1];
    LabelNotEmpty(p);
    if LabelForm(p) && p[|p| - 1] != '-' && DomainForm(rest) {
      forall l | l in labels ensures LabelForm(l) { if l != p { assert l in more; } }
      forall l | l in early ensures l != [] && l[|l| - 1] != '-' { if l != p { assert l in more[..|more| - 1]; } }
    } else if DomainForm(p + "." + rest) {
      assert p in labels && p in early;
      forall l | l in more ensures LabelForm(l) { assert l in labels; }
      forall l | l in more[..|more| - 1] ensures l != [] && l[|l| - 1] != '-' { assert l in early; }
    }
  }

  // Looking at each character and the one before it decides the declarative form.
  lemma {:induction false} FitsIsDomainForm(domain: string)
    ensures FitsEverywhere(domain) <==> DomainForm(domain)
    decreases |domain|
  {
    if '.' !in domain {
      SplitWhole(domain, '.');
      FitsOneLabel(domain);
    } else {
      hide FitsEverywhere, DomainForm;
      var p, rest := FirstLabel(domain);
      FormSplit(p, rest);
      FitsSplit(p, rest);
      FitsIsDomainForm(rest);
    }
  }

  // Only the last label may end in a hyphen.
  lemma OnlyTheLastMayEndInHyphen()
    ensures DomainForm("a-") && !DomainForm("a-.b")
  {
    SplitWhole("a-", '.');
    SplitWhole("b", '.');
    SplitCons("a-", "b", '.');
    assert "a-.b" == "a-" + "." + "b";
    assert "a-" in Split("a-.b", '.')[..1];
  }

  method ValidDomain(domain: string) returns (ok: bool)
    ensures ok <==> DomainForm(domain)
  {
    FitsIsDomainForm(domain);
    if domain == [] || domain[0] == '.' || domain[|domain| - 1] == '.' {
      assert domain != [] && domain[0] == '.' ==> !FitsAt(domain, 0);
      return false;
    }
    var labelStart := 0;
    for i := 0 to |domain|
      invariant 0 <= labelStart <= i
      invariant labelStart == i <==> i == 0 || domain[i - 1] == '.'
      invariant forall j :: 0 <= j < i ==> FitsAt(domain, j)
    {
      var character := domain[i];
      if character == '.' {
        if i == labelStart || domain[i - 1] == '-' {
          assert !FitsAt(domain, i);
          return false;
        }
        labelStart := i + 1;
        continue;
      }
      if character == '-' {
        if i == labelStart {
          assert !FitsAt(domain, i);
          return false;
        }
        continue;
      }
      if (character < 'a' || character > 'z') && (character < 'A' || character > 'Z') &&
          (character < '0' || character > '9') {
        assert !FitsAt(domain, i);
        return false;
      }
    }
    return true;
  }

  // ---- What the decoders compute ----

  // io.ReadFull: all n bytes, or an error once the input is used up.
  function Take(n: nat, input: seq<Byte>): (Option<seq<Byte>>, seq<Byte>) {
    if n <= |input| then (Some(input[..n]), input[n..]) else (None, [])
  }

  function ParseGreeting(input: seq<Byte>): (Result<seq<Byte>, Error>, seq<Byte>) {
    var (header, rest) := Take(2, input);
    if header.None? then (Err(Truncated), rest)
    else if header.value[0] != VERSION then (Err(UnsupportedVersion), rest)
    else if header.value[1] == 0 as char then (Err(NoMethods), rest)
    else
      var (methods, after) := Take(header.value[1] as int, rest);
      (if methods.None? then Err(Truncated) else Ok(methods.value), after)
  }

  ghost function ParseAddress(lib: Library, kind: Byte, input: seq<Byte>): (Result<string, Error>, seq<Byte>) {
    if kind == ADDRESS_IPV4 then
      var (wire, rest) := Take(4, input);
      (if wire.None? then Err(Truncated) else Ok(lib.format4(wire.value)), rest)
    else if kind == ADDRESS_IPV6 then
      var (wire, rest) := Take(16, input);
      (if wire.None? then Err(Truncated) else Ok(lib.format16(wire.value)), rest)
    else if kind == ADDRESS_DOMAIN then
      var (length, rest) := Take(1, input);
      if length.None? then (Err(Truncated), rest)
      else if length.value[0] == 0 as char then (Err(EmptyDomain), rest)
      else
        var (wire, after) := Take(length.value[0] as int, rest);
        (if wire.None? then Err(Truncated) else if !DomainForm(wire.value) then Err(InvalidDomain)
            else Ok(wire.value), after)
    else (Err(UnsupportedAddressType), input)
  }

  function PortOf(wire: seq<Byte>): nat
    requires |wire| == 2
  {
    wire[0] as int * 256 + wire[1] as int
  }

  ghost function ParseRequest(lib: Library, input: seq<Byte>): (Result<Request, Error>, seq<Byte>) {
    var (header, rest) := Take(4, input);
    if header.None? then (Err(Truncated), rest)
    else if header.value[0] != VERSION then (Err(UnsupportedVersion), rest)
    else if header.value[1] != COMMAND_CONNECT then (Err(UnsupportedCommand), rest)
    else if header.value[2] != 0 as char then (Err(InvalidReservedByte), rest)
    else
      var (host, after) := ParseAddress(lib, header.value[3], rest);
      if host.Err? then (Err(host.error), after)
      else
        var (port, end) := Take(2, after);
        (if port.None? then Err(Truncated)
         else if PortOf(port.value) == 0 then Err(InvalidPort)
         else Ok(Request(COMMAND_CONNECT, host.value, PortOf(port.value))), end)
  }

  // ---- Reading from a stream ----

  class Reader {
    var unread: seq<Byte>  // what arrives before the stream ends or fails

    constructor (input: seq<Byte>)
      ensures unread == input
    {
      unread := input;
    }

    method ReadFull(n: nat) returns (bytes: Option<seq<Byte>>)
      modifies this
      ensures (bytes, unread) == Take(n, old(unread))
    {
      if n <= |unread| {
        bytes, unread := Some(unread[..n]), unread[n..];
      } else {
        bytes, unread := None, [];
      }
    }
  }

  method ReadGreeting(reader: Reader) returns (r: Result<seq<Byte>, Error>)
    modifies reader
    ensures (r, reader.unread) == ParseGreeting(old(reader.unread))
  {
    var header := reader.ReadFull(2);
    if header.None? {
      return Err(Truncated);
    }
    if header.value[0] != VERSION {
      return Err(UnsupportedVersion);
    }
    if header.value[1] == 0 as char {
      return Err(NoMethods);
    }
    var methods := reader.ReadFull(header.value[1] as int);
    return if methods.None? then Err(Truncated) else Ok(methods.value);
  }

  method ReadAddress(lib: Library, reader: Reader, kind: Byte) returns (r: Result<string, Error>)
    modifies reader
    ensures (r, reader.unread) == ParseAddress(lib, kind, old(reader.unread))
  {
    if kind == ADDRESS_IPV4 {
      var wire := reader.ReadFull(4);
      return if wire.None? then Err(Truncated) else Ok(lib.format4(wire.value));
    } else if kind == ADDRESS_IPV6 {
      var wire := reader.ReadFull(16);
      return if wire.None? then Err(Truncated) else Ok(lib.format16(wire.value));
    } else if kind == ADDRESS_DOMAIN {
      var length := reader.ReadFull(1);
      if length.None? {
        return Err(Truncated);
      }
      if length.value[0] == 0 as char {
        return Err(EmptyDomain);
      }
      var wire := reader.ReadFull(length.value[0] as int);
      if wire.None? {
        return Err(Truncated);
      }
      var valid := ValidDomain(wire.value);
      return if !valid then Err(InvalidDomain) else Ok(wire.value);
    }
    return Err(UnsupportedAddressType);
  }

  method ReadRequest(lib: Library, reader: Reader) returns (r: Result<Request, Error>)
    modifies reader
    ensures (r, reader.unread) == ParseRequest(lib, old(reader.unread))
  {
    var header := reader.ReadFull(4);
    if header.None? {
      return Err(Truncated);
    }
    if header.value[0] != VERSION {
      return Err(UnsupportedVersion);
    }
    if header.value[1] != COMMAND_CONNECT {
      return Err(UnsupportedCommand);
    }
    if header.value[2] != 0 as char {
      return Err(InvalidReservedByte);
    }
    var host := ReadAddress(lib, reader, header.value[3]);
    if host.Err? {
      return Err(host.error);
    }
    var port := reader.ReadFull(2);
    if port.None? {
      return Err(Truncated);
    }
    if PortOf(port.value) == 0 {
      return Err(InvalidPort);
    }
    return Ok(Request(COMMAND_CONNECT, host.value, PortOf(port.value)));
  }

  // ---- The encoding the decoders invert ----

  datatype WireHost = IPv4(address: seq<Byte>) | IPv6(address: seq<Byte>) | Domain(name: seq<Byte>)

  ghost predicate WireForm(h: WireHost) {
    match h
    case IPv4(address) => |address| == 4
    case IPv6(address) => |address| == 16
    case Domain(name) => |name| <= 255 && DomainForm(name)
  }

  function HostText(lib: Library, h: WireHost): string {
    match h
    case IPv4(address) => lib.format4(address)
    case IPv6(address) => lib.format16(address)
    case Domain(name) => name
  }

  function EncodeHost(h: WireHost): (wire: seq<Byte>)
    requires h.Domain? ==> |h.name| <= 255
    ensures wire != []
  {
    match h
    case IPv4(address) => [ADDRESS_IPV4] + address
    case IPv6(address) => [ADDRESS_IPV6] + address
    case Domain(name) => [ADDRESS_DOMAIN, |name| as char] + name
  }

  function EncodePort(port: nat): (wire: seq<Byte>)
    requires port < 0x10000
    ensures |wire| == 2 && PortOf(wire) == port
  {
    [(port / 256) as char, (port % 256) as char]
  }

  function Encode(h: WireHost, port: nat): seq<Byte>
    requires h.Domain? ==> |h.name| <= 255
    requires port < 0x10000
  {
    [VERSION, COMMAND_CONNECT, 0 as char] + EncodeHost(h) + EncodePort(port)
  }

  function EncodeGreeting(methods: seq<Byte>): seq<Byte>
    requires |methods| <= 255
  {
    [VERSION, |methods| as char] + methods
  }

  function Octet(n: nat): Byte
    requires n < 256
  {
    n as char
  }

  // The bytes of a request (section 4 of RFC 1928): version 5, CONNECT, a zero,
  // the address type with the address, and the port with its high byte first.
  lemma EncodedBytes(h: WireHost, port: nat)
    requires WireForm(h) && port < 0x10000
    ensures Encode(h, port) ==
      [Octet(5), Octet(1), Octet(0)]
      + (match h
         case IPv4(address) => [Octet(1)] + address
         case Domain(name) => [Octet(3), Octet(|name|)] + name
         case IPv6(address) => [Octet(4)] + address)
      + [Octet(port / 256), Octet(port % 256)]
    ensures METHOD_NO_AUTH == Octet(0) && METHOD_NO_ACCEPTABLE == Octet(255)
  {
    hide DomainForm;
  }

  // The bytes of a greeting: version 5, the number of methods, the methods.
  lemma GreetingBytes(methods: seq<Byte>)
    requires |methods| <= 255
    ensures EncodeGreeting(methods) == [Octet(5), Octet(|methods|)] + methods
  {
  }

  // Which error each rejected request gets, by its bytes.
  lemma RequestErrors(lib: Library, input: seq<Byte>)
    requires |input| >= 5
    ensures var r := ParseRequest(lib, input).0;
      && (r == Err(UnsupportedVersion) <==> input[0] != Octet(5))
      && (r == Err(UnsupportedCommand) <==> input[0] == Octet(5) && input[1] != Octet(1))
      && (r == Err(InvalidReservedByte) <==> input[0] == Octet(5) && input[1] == Octet(1) && input[2] != Octet(0))
      && (r == Err(UnsupportedAddressType) <==>
            && input[..3] == [Octet(5), Octet(1), Octet(0)]
            && input[3] !in [Octet(1), Octet(3), Octet(4)])
      && (r == Err(EmptyDomain) <==>
            input[..4] == [Octet(5), Octet(1), Octet(0), Octet(3)] && input[4] == Octet(0))
  {
    hide DomainForm;
    assert input[..3] == [Octet(5), Octet(1), Octet(0)] <==>
      input[0] == Octet(5) && input[1] == Octet(1) && input[2] == Octet(0);
    assert input[..4] == [Octet(5), Octet(1), Octet(0), Octet(3)] <==>
      input[0] == Octet(5) && input[1] == Octet(1) && input[2] == Octet(0) && input[3] == Octet(3);
  }

  lemma TakeAll(wire: seq<Byte>, rest: seq<Byte>)
    ensures Take(|wire|, wire + rest) == (Some(wire), rest)
  {}

  lemma DomainNotEmpty(name: string)
    ensures DomainForm(name) ==> name != []
  {
    assert Split("", '.') == [""] && "" in [""];
  }

  // An address, read back, leaves what follows it.
  lemma ReadsHost(lib: Library, h: WireHost, rest: seq<Byte>)
    requires WireForm(h)
    ensures ParseAddress(lib, EncodeHost(h)[0], EncodeHost(h)[1..] + rest) == (Ok(HostText(lib, h)), rest)
  {
    hide DomainForm;
    var tail := EncodeHost(h)[1..];
    match h
    case IPv4(address) => assert tail == address; TakeAll(address, rest);
    case IPv6(address) => assert tail == address; TakeAll(address, rest);
    case Domain(name) =>
      DomainNotEmpty(name);
      assert tail + rest == [|name| as char] + (name + rest);
      TakeAll([|name| as char], name + rest);
      TakeAll(name, rest);
  }

  // Whatever follows a request, it is read back and what follows is left unread.
  lemma ReadsEncoding(lib: Library, h: WireHost, port: nat, rest: seq<Byte>)
    requires WireForm(h) && 0 < port < 0x10000
    ensures ParseRequest(lib, Encode(h, port) + rest) == (Ok(Request(COMMAND_CONNECT, HostText(lib, h), port)), rest)
  {
    hide DomainForm, ParseAddress, EncodeHost, EncodePort, HostText;
    var host := EncodeHost(h);
    var header := [VERSION, COMMAND_CONNECT, 0 as char, host[0]];
    var after := EncodePort(port) + rest;
    assert Encode(h, port) + rest == header + (host[1..] + after);
    TakeAll(header, host[1..] + after);
    ReadsHost(lib, h, after);
    TakeAll(EncodePort(port), rest);
  }

  lemma AddressIsEncoding(lib: Library, kind: Byte, input: seq<Byte>) returns (h: WireHost)
    requires ParseAddress(lib, kind, input).0.Ok?
    ensures WireForm(h) && ParseAddress(lib, kind, input).0 == Ok(HostText(lib, h))
    ensures [kind] + input == EncodeHost(h) + ParseAddress(lib, kind, input).1
  {
    hide DomainForm;
    if kind == ADDRESS_IPV4 {
      h := IPv4(input[..4]);
    } else if kind == ADDRESS_IPV6 {
      h := IPv6(input[..16]);
    } else {
      var n := input[0] as int;
      h := Domain(input[1..][..n]);
      assert [kind] + input == [kind, input[0]] + input[1..][..n] + input[1..][n..];
    }
  }

  lemma PortRoundTrip(wire: seq<Byte>)
    requires |wire| == 2
    ensures PortOf(wire) < 0x10000 && EncodePort(PortOf(wire)) == wire
  {}

  // Whatever is accepted begins with the encoding of what was returned.
  lemma AcceptedIsEncoding(lib: Library, input: seq<Byte>) returns (h: WireHost, port: nat)
    requires ParseRequest(lib, input).0.Ok?
    ensures WireForm(h) && 0 < port < 0x10000
    ensures ParseRequest(lib, input).0.value == Request(COMMAND_CONNECT, HostText(lib, h), port)
    ensures input == Encode(h, port) + ParseRequest(lib, input).1
  {
    hide DomainForm, ParseAddress, EncodeHost, HostText;
    var (host, after) := ParseAddress(lib, input[3], input[4..]);
    h := AddressIsEncoding(lib, input[3], input[4..]);
    var wire := after[..2];
    PortRoundTrip(wire);
    port := PortOf(wire);
    var rest := after[2..];
    assert after == EncodePort(port) + rest;
    assert input == input[..3] + ([input[3]] + input[4..]);
    assert input[..3] == [VERSION, COMMAND_CONNECT, 0 as char];
    assert input == input[..3] + EncodeHost(h) + EncodePort(port) + rest;
  }

  // No encoding is a proper prefix of another, so requests sent back to back
  // can be cut apart in one way only.
  lemma EncodingsDoNotOverlap(h: WireHost, port: nat, rest: seq<Byte>, h': WireHost, port': nat, rest': seq<Byte>)
    requires WireForm(h) && 0 < port < 0x10000 && WireForm(h') && 0 < port' < 0x10000
    requires Encode(h, port) + rest == Encode(h', port') + rest'
    ensures h == h' && port == port' && rest == rest'
  {
    hide DomainForm, ParseRequest;
    var v4 := Library(a => a, a => a);
    ReadsEncoding(v4, h, port, rest);
    ReadsEncoding(v4, h', port', rest');
    var input := Encode(h, port) + rest;
    assert EncodeHost(h)[0] == input[3] == EncodeHost(h')[0];
    assert HostText(v4, h) == HostText(v4, h');
  }

  // However the input looks, at most the longest request is taken from it.
  lemma ReadsAreBounded(lib: Library, input: seq<Byte>)
    ensures |input| - |ParseRequest(lib, input).1| <= 262
  {
    hide DomainForm;
  }

  // A greeting that offers a method is read back and what follows is left unread.
  lemma ReadsGreeting(methods: seq<Byte>, rest: seq<Byte>)
    requires 0 < |methods| <= 255
    ensures ParseGreeting(EncodeGreeting(methods) + rest) == (Ok(methods), rest)
  {
    var header := [VERSION, |methods| as char];
    assert EncodeGreeting(methods) + rest == header + (methods + rest);
    TakeAll(header, methods + rest);
    TakeAll(methods, rest);
  }

  lemma AcceptedIsGreeting(input: seq<Byte>)
    requires ParseGreeting(input).0.Ok?
    ensures var (methods, rest) := ParseGreeting(input);
      0 < |methods.value| <= 255 && input == EncodeGreeting(methods.value) + rest
  {
    var n := input[1] as int;
    assert input == input[..2] + (input[2..][..n] + input[2..][n..]);
  }

  method Offers(methods: seq<Byte>, wanted: Byte) returns (offered: bool)
    ensures offered <==> wanted in methods
  {
    for i := 0 to |methods|
      invariant wanted !in methods[..i]
    {
      if methods[i] == wanted {
        return true;
      }
    }
    return false;
  }

  method SelectNoAuth(methods: seq<Byte>) returns (chosen: Byte)
    ensures chosen == if METHOD_NO_AUTH in methods then METHOD_NO_AUTH else METHOD_NO_ACCEPTABLE
  {
    var offered := Offers(methods, METHOD_NO_AUTH);
    return if offered then METHOD_NO_AUTH else METHOD_NO_ACCEPTABLE;
  }

  // ---- Writing ----

  // How a writer answers its k-th call: how many bytes it takes, and whether
  // it reports an error. It never takes more than it is offered.
  datatype Answer = Answer(takes: nat, failed: bool)

  class Writer {
    const answers: nat -> Answer
    var calls: nat
    var emitted: seq<Byte>

    constructor (answers: nat -> Answer)
      ensures this.answers == answers && calls == 0 && emitted == []
    {
      this.answers := answers;
      calls, emitted := 0, [];
    }

    method Write(bytes: seq<Byte>) returns (written: nat, failed: bool)
      modifies this
      ensures calls == old(calls) + 1
      ensures written == Taken(answers(old(calls)), bytes) && failed == answers(old(calls)).failed
      ensures emitted == old(emitted) + bytes[..written]
    {
      written, failed := Taken(answers(calls), bytes), answers(calls).failed;
      emitted := emitted + bytes[..written];
      calls := calls + 1;
    }
  }

  function Taken(a: Answer, bytes: seq<Byte>): (n: nat)
    ensures n <= |bytes|
  {
    if a.takes <= |bytes| then a.takes else |bytes|
  }

  ghost predicate MakesProgress(answers: nat -> Answer) {
    forall k :: !answers(k).failed && answers(k).takes > 0
  }

  // Everything or a prefix: success means every byte went out once and in
  // order; a failure is the last answer's, and before it each answer moved on.
  method WriteAll(writer: Writer, bytes: seq<Byte>) returns (error: Option<Error>)
    modifies writer
    ensures writer.calls >= old(writer.calls)
    ensures error.None? ==> writer.emitted == old(writer.emitted) + bytes
    ensures exists sent :: 0 <= sent <= |bytes| && writer.emitted == old(writer.emitted) + bytes[..sent]
    ensures forall k :: old(writer.calls) <= k < writer.calls - (if error.Some? then 1 else 0) ==>
      !writer.answers(k).failed && writer.answers(k).takes > 0
    ensures error.Some? ==> writer.calls > old(writer.calls)
    ensures error.Some? ==>
      var last := writer.answers(writer.calls - 1);
      if last.failed then error == Some(WriteFailed) else last.takes == 0 && error == Some(ShortWrite)
    ensures MakesProgress(writer.answers) ==> error.None?
  {
    var rest := bytes;
    ghost var sent := 0;
    while |rest| > 0
      invariant 0 <= sent <= |bytes| && rest == bytes[sent..]
      invariant writer.calls >= old(writer.calls)
      invariant writer.emitted == old(writer.emitted) + bytes[..sent]
      invariant forall k :: old(writer.calls) <= k < writer.calls ==>
          !writer.answers(k).failed && writer.answers(k).takes > 0
      decreases |rest|
    {
      var written, failed := writer.Write(rest);
      assert bytes[..sent] + rest[..written] == bytes[..sent + written];
      sent := sent + written;
      if failed {
        return Some(WriteFailed);
      }
      if written == 0 {
        return Some(ShortWrite);
      }
      rest := rest[written..];
    }
    return None;
  }

  method WriteMethod(writer: Writer, chosen: Byte) returns (error: Option<Error>)
    modifies writer
    ensures chosen !in {METHOD_NO_AUTH, METHOD_NO_ACCEPTABLE} ==>
        error == Some(UnsupportedMethod) && writer.emitted == old(writer.emitted)
    ensures error.None? ==> writer.emitted == old(writer.emitted) + [VERSION, chosen]
    ensures MakesProgress(writer.answers) && chosen in {METHOD_NO_AUTH, METHOD_NO_ACCEPTABLE} ==> error.None?
  {
    if chosen != METHOD_NO_AUTH && chosen != METHOD_NO_ACCEPTABLE {
      return Some(UnsupportedMethod);
    }
    error := WriteAll(writer, [VERSION, chosen]);
  }

  method WriteReply(writer: Writer, reply: Byte) returns (error: Option<Error>)
    modifies writer
    ensures reply as int > 8 ==> error == Some(UnsupportedReply) && writer.emitted == old(writer.emitted)
    ensures error.None? ==>
      writer.emitted == old(writer.emitted) + [VERSION, reply, 0 as char, ADDRESS_IPV4] + seq(6, _ => 0 as char)
    ensures MakesProgress(writer.answers) && reply as int <= 8 ==> error.None?
  {
    if reply as int > 8 {
      return Some(UnsupportedReply);
    }
    error := WriteAll(writer, [VERSION, reply, 0 as char, ADDRESS_IPV4] + seq(6, _ => 0 as char));
  }
}
