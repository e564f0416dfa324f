/** Validation of a configured service (lib/model/ServiceNode.cpp): the IPv4 recogniser against a printer. */
module ServiceNodes {
  import opened Words
  import opened FnvHash
  import opened Decimal
  import opened ServicePools

  const DOT: Byte := 46

  /** The IPv4address rule in section 3.2.2 of RFC 3986, as a printer. */
  function Dotted(a: nat, b: nat, c: nat, d: nat): Bytes {
    DigitBytes(a) + [DOT] + (DigitBytes(b) + [DOT] + (DigitBytes(c) + [DOT] + DigitBytes(d)))
  }

  ghost predicate IsDotted(ip: Bytes) {
    exists a: nat, b: nat, c: nat, d: nat | a < 256 && b < 256 && c < 256 && d < 256 :: ip == Dotted(a, b, c, d)
  }

  // ----- one octet -----

  ghost predicate IsOctet(token: Bytes) {
    exists n: nat | n < 256 :: token == DigitBytes(n)
  }

  predicate AllDigits(token: Bytes) {
    forall i | 0 <= i < |token| :: ZERO_SIGN <= token[i] < ZERO_SIGN + 10
  }

  function ToDigits(token: Bytes): (ds: seq<nat>)
    requires AllDigits(token)
    ensures |ds| == |token| && IsDigits(ds)
  {
    seq(|token|, i requires 0 <= i < |token| => token[i] - ZERO_SIGN)
  }

  /** `std::stoi` on a token of digits. */
  method ParseNumber(token: Bytes) returns (n: nat)
    requires AllDigits(token)
    ensures n == Value(ToDigits(token))
  {
    n := 0;
    for i := 0 to |token|
      invariant n == Value(ToDigits(token)[..i])
    {
      n := 10 * n + (token[i] - ZERO_SIGN);
      assert ToDigits(token)[..i + 1][..i] == ToDigits(token)[..i];
    }
    assert ToDigits(token)[..|token|] == ToDigits(token);
  }

  lemma PrintedDigits(n: nat)
    ensures AllDigits(DigitBytes(n)) && ToDigits(DigitBytes(n)) == Digits(n)
  {}

  lemma DigitsPrinted(token: Bytes)
    requires AllDigits(token) && token != [] && (|token| > 1 ==> token[0] != ZERO_SIGN)
    ensures token == DigitBytes(Value(ToDigits(token)))
  {
    DigitsOfValue(ToDigits(token));
  }

  /** The checks on one token accept exactly the printed numbers up to 255. */
  method CheckToken(token: Bytes) returns (ok: bool)
    ensures ok <==> IsOctet(token)
  {
    ghost var isOctet := IsOctet(token);
    if isOctet {
      var n: nat :| n < 256 && token == DigitBytes(n);
      DigitCount(n);
      NoLeadingZero(n);
      PrintedDigits(n);
      ValueOfDigits(n);
    }
    if |token| == 0 || |token| > 3 {
      return false;
    }
    if |token| > 1 && token[0] == ZERO_SIGN {
      return false;
    }
    for i := 0 to |token|
      invariant AllDigits(token[..i])
    {
      if token[i] < ZERO_SIGN || token[i] > ZERO_SIGN + 9 {
        assert !AllDigits(token);
        return false;
      }
    }
    assert token[..|token|] == token;
    var n := ParseNumber(token);
    if n > 255 {
      return false;
    }
    DigitsPrinted(token);
    return true;
  }

  // ----- tokens -----

  /** How far `getline` reads: to the first dot, or to the end. */
  function TokenEnd(s: Bytes): (k: nat)
    ensures k <= |s| && (forall i | 0 <= i < k :: s[i] != DOT) && (k < |s| ==> s[k] == DOT)
  {
    if s == [] || s[0] == DOT then 0 else 1 + TokenEnd(s[1..])
  }

  /** The tokens `getline` yields: an empty one at the very end is dropped. */
  function Tokens(s: Bytes): seq<Bytes> {
    if s == [] then []
    else
      var k := TokenEnd(s);
      [s[..k]] + if k < |s| then Tokens(s[k + 1..]) else []
  }

  function Joined(tokens: seq<Bytes>): Bytes
    requires tokens != []
  {
    if |tokens| == 1 then tokens[0] else tokens[0] + [DOT] + Joined(tokens[1..])
  }

  lemma FirstToken(token: Bytes, rest: Bytes)
    requires forall i | 0 <= i < |token| :: token[i] != DOT
    ensures Tokens(token + [DOT] + rest) == [token] + Tokens(rest)
    ensures token != [] ==> Tokens(token) == [token]
  {
    var s := token + [DOT] + rest;
    assert TokenEnd(s) == |token| by {
      assert s[|token|] == DOT;
      assert forall i | 0 <= i < |token| :: s[i] == token[i];
    }
    assert s[..|token|] == token && s[|token| + 1..] == rest;
    assert TokenEnd(token) == |token|;
    assert token[..|token|] == token;
  }

  lemma JoinedCons(token: Bytes, tokens: seq<Bytes>)
    requires tokens != []
    ensures Joined([token] + tokens) == token + [DOT] + Joined(tokens)
  {
    assert ([token] + tokens)[1..] == tokens;
  }

  /** Joining the tokens gives the string back, except that a final dot is lost. */
  lemma {:induction false} TokensJoin(s: Bytes)
    requires s != []
    ensures Tokens(s) != []
    ensures s == Joined(Tokens(s)) + if s[|s| - 1] == DOT then [DOT] else []
  {
    hide Tokens;
    var k := TokenEnd(s);
    if k == |s| {
      assert s[..k] == s;
      FirstToken(s, []);
    } else {
      var token, rest := s[..k], s[k + 1..];
      assert s == token + [DOT] + rest;
      FirstToken(token, rest);
      if rest == [] {
        NoTokens();
        assert [token] + [] == [token];
      } else {
        TokensJoin(rest);
        JoinedCons(token, Tokens(rest));
      }
    }
  }

  ghost predicate AllOctets(tokens: seq<Bytes>) {
    forall i | 0 <= i < |tokens| :: IsOctet(tokens[i])
  }

  lemma NoTokens()
    ensures Tokens([]) == [] && AllOctets([])
  {}

  lemma PrintedHasNoDot(n: nat)
    ensures forall i | 0 <= i < |DigitBytes(n)| :: DigitBytes(n)[i] != DOT
  {
    PrintedDigits(n);
  }

  lemma TokensOfDotted(a: nat, b: nat, c: nat, d: nat)
    ensures Tokens(Dotted(a, b, c, d)) == [DigitBytes(a), DigitBytes(b), DigitBytes(c), DigitBytes(d)]
  {
    hide Tokens, DigitBytes;
    PrintedHasNoDot(a);
    PrintedHasNoDot(b);
    PrintedHasNoDot(c);
    PrintedHasNoDot(d);
    var cd := DigitBytes(c) + [DOT] + DigitBytes(d);
    FirstToken(DigitBytes(a), DigitBytes(b) + [DOT] + cd);
    FirstToken(DigitBytes(b), cd);
    FirstToken(DigitBytes(c), DigitBytes(d));
    FirstToken(DigitBytes(d), []);
  }

  /** The four numbers of an address are unique. */
  lemma DottedInjective(a: nat, b: nat, c: nat, d: nat, a': nat, b': nat, c': nat, d': nat)
    requires Dotted(a, b, c, d) == Dotted(a', b', c', d')
    ensures a == a' && b == b' && c == c' && d == d'
  {
    hide Dotted, DigitBytes;
    TokensOfDotted(a, b, c, d);
    TokensOfDotted(a', b', c', d');
    DigitBytesInjective(a, a');
    DigitBytesInjective(b, b');
    DigitBytesInjective(c, c');
    DigitBytesInjective(d, d');
  }

  lemma LastOfDotted(a: nat, b: nat, c: nat, d: nat)
    ensures var ip, last := Dotted(a, b, c, d), DigitBytes(d);
            ip != [] && ip[|ip| - 1] == last[|last| - 1]
  {
    hide DigitBytes;
    var front := DigitBytes(a) + [DOT] + (DigitBytes(b) + [DOT] + (DigitBytes(c) + [DOT]));
    assert Dotted(a, b, c, d) == front + DigitBytes(d);
  }

  lemma DottedMeansFourOctets(ip: Bytes)
    requires IsDotted(ip)
    ensures ip != [] && ip[|ip| - 1] != DOT && |Tokens(ip)| == 4 && AllOctets(Tokens(ip))
  {
    hide Tokens, DigitBytes, Dotted;
    var a: nat, b: nat, c: nat, d: nat :| a < 256 && b < 256 && c < 256 && d < 256 && ip == Dotted(a, b, c, d);
    TokensOfDotted(a, b, c, d);
    PrintedHasNoDot(d);
    LastOfDotted(a, b, c, d);
  }

  lemma FourOctetsMeanDotted(ip: Bytes)
    requires ip != [] && ip[|ip| - 1] != DOT && |Tokens(ip)| == 4 && AllOctets(Tokens(ip))
    ensures IsDotted(ip)
  {
    hide DigitBytes, Tokens;
    var ts := Tokens(ip);
    TokensJoin(ip);
    var a: nat :| a < 256 && ts[0] == DigitBytes(a);
    var b: nat :| b < 256 && ts[1] == DigitBytes(b);
    var c: nat :| c < 256 && ts[2] == DigitBytes(c);
    var d: nat :| d < 256 && ts[3] == DigitBytes(d);
    assert ts[1..][1..] == ts[2..] && ts[2..][1..] == ts[3..] && ts[3..] == [ts[3]];
    assert Joined(ts[2..]) == ts[2] + [DOT] + ts[3];
    assert Joined(ts[1..]) == ts[1] + [DOT] + Joined(ts[2..]);
    assert Joined(ts) == ts[0] + [DOT] + Joined(ts[1..]);
    assert ip == Dotted(a, b, c, d);
  }

  // ----- the recogniser -----

  /** Accepts a string exactly when it is the printed dotted form of four numbers from 0 to 255. */
  method IsValidIpv4(ip: Bytes) returns (valid: bool)
    ensures valid <==> IsDotted(ip)
  {
    hide Tokens, TokenEnd, IsOctet, AllOctets, IsDotted;
    var pos, octetCount := 0, 0;
    if IsDotted(ip) {
      DottedMeansFourOctets(ip);
    }
    assert ip[0..] == ip;
    while pos < |ip|
      invariant pos <= |ip|
      invariant octetCount + |Tokens(ip[pos..])| == |Tokens(ip)|
      invariant AllOctets(Tokens(ip)) <==> AllOctets(Tokens(ip[pos..]))
    {
      var rest := ip[pos..];
      var k := TokenEnd(rest);
      var token := rest[..k];
      var ok := CheckToken(token);
      if !ok {
        BadToken(rest);
        return false;
      }
      octetCount := octetCount + 1;
      NextToken(rest);
      pos := if k < |rest| then pos + k + 1 else |ip|;
      assert ip[pos..] == if k < |rest| then rest[k + 1..] else [];
    }
    assert ip[|ip|..] == [];
    NoTokens();
    if octetCount == 4 && ip[|ip| - 1] != DOT {
      FourOctetsMeanDotted(ip);
      return true;
    }
    return false;
  }

  lemma BadToken(rest: Bytes)
    requires rest != [] && !IsOctet(rest[..TokenEnd(rest)])
    ensures !AllOctets(Tokens(rest))
  {
    hide IsOctet;
    assert Tokens(rest)[0] == rest[..TokenEnd(rest)];
  }

  lemma NextToken(rest: Bytes)
    requires rest != [] && IsOctet(rest[..TokenEnd(rest)])
    ensures var k := TokenEnd(rest);
            var after := if k < |rest| then rest[k + 1..] else [];
            && |Tokens(rest)| == 1 + |Tokens(after)|
            && (AllOctets(Tokens(rest)) <==> AllOctets(Tokens(after)))
  {
    var k := TokenEnd(rest);
    var after := if k < |rest| then rest[k + 1..] else [];
    assert Tokens(rest) == [rest[..k]] + Tokens(after);
    hide Tokens, TokenEnd, IsOctet;
    assert forall i | 0 < i < |Tokens(rest)| :: Tokens(rest)[i] == Tokens(after)[i - 1];
    assert forall i | 0 <= i < |Tokens(after)| :: Tokens(after)[i] == Tokens(rest)[i + 1];
  }

  method IsValid(node: ServiceNode) returns (valid: bool)
    ensures valid <==> node.name != [] && node.port != 0 && IsDotted(node.ip)
  {
    if IsDotted(node.ip) {
      DottedMeansFourOctets(node.ip);
    }
    var address := IsValidIpv4(node.ip);
    valid := |node.name| != 0 && |node.ip| != 0 && node.port != 0 && address;
  }
}
