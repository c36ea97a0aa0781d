// The one-line handoff form of a link pairing.
module Pairing {
  import opened Wrappers
  import opened Text
  import opened Decimal

  const PREFIX := "ndlink1"

  datatype Pairing = Pairing(remotePort: nat, address: string)

  datatype PairingError = Whitespace | Malformed | BadPort | BadAddress

  function Encode(p: Pairing): string {
    PREFIX + ":" + Print(p.remotePort) + ":" + p.address
  }

  // `validAddress` stands for the Tailcat library's address parser.
  function ParsePairing(validAddress: string -> bool, value: string): Result<Pairing, PairingError> {
    if value != TrimSpace(value) then Err(Whitespace)
    else
      var parts := Split(value, ':');
      if |parts| != 3 || parts[0] != PREFIX then Err(Malformed)
      else
        match ParseUint(parts[1], 0xFFFF)
        case None => Err(BadPort)
        case Some(port) =>
          if port == 0 then Err(BadPort)
          else if !validAddress(parts[2]) then Err(BadAddress)
          else Ok(Pairing(port, parts[2]))
  }

  lemma ThreeParts(a: string, b: string, c: string)
    requires ':' !in a && ':' !in b && ':' !in c
    ensures Split(a + ":" + b + ":" + c, ':') == [a, b, c]
  {
    SplitCons(a, b + ":" + c, ':');
    SplitCons(b, c, ':');
    SplitWhole(c, ':');
    assert a + ":" + b + ":" + c == a + ":" + (b + ":" + c);
  }

  lemma PartsOfThree(value: string)
    requires |Split(value, ':')| == 3
    ensures var p := Split(value, ':'); value == p[0] + ":" + p[1] + ":" + p[2]
    ensures forall p :: p in Split(value, ':') ==> ':' !in p
  {
    SplitParts(value, ':');
    var p := Split(value, ':');
    assert p[1..][1..] == [p[2]] && p[1..][0] == p[1];
    assert Join(p[1..], ":") == p[1] + ":" + Join([p[2]], ":");
    assert Join(p, ":") == p[0] + ":" + (p[1] + ":" + p[2]);
    assert p[0] + ":" + (p[1] + ":" + p[2]) == p[0] + ":" + p[1] + ":" + p[2];
  }

  // value spells the pairing with these digits for its port.
  ghost predicate Written(value: string, digits: string, p: Pairing) {
    ParseUint(digits, 0xFFFF) == Some(p.remotePort) && value == PREFIX + ":" + digits + ":" + p.address
  }

  lemma EndOfValue(front: string, address: string)
    requires front != "" && front[|front| - 1] == ':'
    ensures TrailingSpace(front + address) == TrailingSpace(address)
  {
    hide IsSpace, EndsWide;
    var value := front + address;
    SameTail(front, address, 2);
    SameTail(front, address, 3);
    ColonIsNoSpace();
    assert value[|value| - 1] == if address == "" then ':' else address[|address| - 1];
  }

  lemma ColonIsNoSpace()
    ensures !IsSpace(':')
  {}

  // The last bytes are the address's own, or hold the colon before it.
  lemma SameTail(front: string, address: string, n: nat)
    requires front != "" && front[|front| - 1] == ':' && n > 0
    ensures EndsWide(front + address, n) == EndsWide(address, n)
  {
    hide IsWideSpace;
    var value := front + address;
    if n <= |address| {
      assert value[|value| - n..] == address[|address| - n..];
    } else if n <= |value| {
      var tail := value[|value| - n..];
      assert tail[n - |address| - 1] == ':';
      WideIsNotAscii(tail);
    }
  }

  lemma WrittenExactly(value: string, p: Pairing)
    ensures (exists digits :: Written(value, digits, p)) <==>
      p.remotePort <= 0xFFFF && exists k :: value == "ndlink1:" + (Zeros(k) + Print(p.remotePort)) + ":" + p.address
  {
    hide ParseUint, Print, Zeros;
    assert PREFIX + ":" == "ndlink1:";
    if digits :| Written(value, digits, p) {
      ParseUintExactly(digits, 0xFFFF, p.remotePort);
    }
    if p.remotePort <= 0xFFFF {
      if k :| value == "ndlink1:" + (Zeros(k) + Print(p.remotePort)) + ":" + p.address {
        ParseUintExactly(Zeros(k) + Print(p.remotePort), 0xFFFF, p.remotePort);
        assert Written(value, Zeros(k) + Print(p.remotePort), p);
      }
    }
  }

  // Exactly which strings are accepted, and as what.
  lemma Accepts(validAddress: string -> bool, value: string, p: Pairing)
    ensures ParsePairing(validAddress, value) == Ok(p) <==>
      && 0 < p.remotePort <= 0xFFFF
      && ':' !in p.address && validAddress(p.address)
      && TrailingSpace(p.address) == 0
      && exists k :: value == "ndlink1:" + (Zeros(k) + Print(p.remotePort)) + ":" + p.address
  {
    hide TrimSpace, LeadingSpace, TrailingSpace, Print, Zeros;
    Trimmed(value);
    WrittenExactly(value, p);
    if ParsePairing(validAddress, value) == Ok(p) {
      PartsOfThree(value);
      var digits := Split(value, ':')[1];
      assert Written(value, digits, p);
      EndOfValue(PREFIX + ":" + digits + ":", p.address);
    }
    if exists digits :: Written(value, digits, p) {
      var digits :| Written(value, digits, p);
      if ':' !in p.address {
        ThreeParts(PREFIX, digits, p.address);
        LeadingAscii(value);
        EndOfValue(PREFIX + ":" + digits + ":", p.address);
      }
    }
  }

  // Encoding and parsing again gives the same pairing back, whatever form the
  // port had in the string first accepted.
  lemma ReencodeRoundTrip(validAddress: string -> bool, value: string, p: Pairing)
    requires ParsePairing(validAddress, value) == Ok(p)
    ensures ParsePairing(validAddress, Encode(p)) == Ok(p)
  {
    hide *;
    Accepts(validAddress, value, p);
    EncodeIsWritten(p);
    Accepts(validAddress, Encode(p), p);
  }

  lemma EncodeIsWritten(p: Pairing)
    ensures exists k :: Encode(p) == "ndlink1:" + (Zeros(k) + Print(p.remotePort)) + ":" + p.address
  {
    hide Print;
    assert Zeros(0) + Print(p.remotePort) == Print(p.remotePort);
    assert PREFIX + ":" == "ndlink1:";
    assert Encode(p) == "ndlink1:" + (Zeros(0) + Print(p.remotePort)) + ":" + p.address;
  }

  // The encoding is the accepted string itself exactly when its port had no
  // leading zero.
  lemma EncodeIsIdentity(validAddress: string -> bool, value: string, p: Pairing)
    requires ParsePairing(validAddress, value) == Ok(p)
    ensures Encode(p) == value <==> Split(value, ':')[1][0] != '0'
  {
    PartsOfThree(value);
    var digits := Split(value, ':')[1];
    PrintReadsBack(p.remotePort);
    ThreeParts(PREFIX, Print(p.remotePort), p.address);
    if digits[0] != '0' {
      CanonicalIsPrinted(digits);
    } else {
      PrintIsCanonical(p.remotePort);
    }
  }
}
