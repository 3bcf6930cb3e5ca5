/** Reading a share link (core/utils.py): protocol, server, port. */
module ConfigUtils {
  import opened Text
  import opened ConfigPattern
  import HostPattern
  import Json
  import PortPattern
  import Vmess

  datatype Protocol = Vless | VMess | Trojan | Shadowsocks | Unknown

  /** detect_protocol */
  function DetectProtocol(config: string): Protocol {
    var s := Strip(config);
    if StartsWithLower(s, VLESS) then Vless
    else if StartsWithLower(s, VMESS) then VMess
    else if StartsWithLower(s, TROJAN) then Trojan
    else if StartsWithLower(s, SS) then Shadowsocks
    else Unknown
  }

  datatype HostResult = NoHost | Host(value: Json.Value)

  predicate IsUri(s: string) {
    VLESS <= s || TROJAN <= s || SS <= s
  }

  /** data.get(key), where JSON null and a missing key both are None. */
  function FieldOf(loaded: Json.Loaded, key: string): HostResult {
    match loaded
    case Failure => NoHost
    case Success(o) =>
      match Json.Get(o, key)
      case Absent => NoHost
      case Present(v) => if v.Null? then NoHost else Host(v)
  }

  /** extract_host */
  function ExtractHost(config: string): HostResult {
    var s := Strip(config);
    if IsUri(s) then
      match HostPattern.SearchHost(s)
      case None => NoHost
      case Some(h) => Host(Json.Str(h))
    else if VMESS <= s then FieldOf(Vmess.DecodeLenient(s), "add")
    else NoHost
  }

  datatype PortResult = NoPort | Port(n: int)

  /** Digits, with single underscores between them. */
  function ParseDigits(negative: bool, d: string): PortResult {
    var digits := Without(d, {'_'});
    if d == [] || d[0] == '_' || d[|d| - 1] == '_' || Contains(d, "__")
       || exists i :: 0 <= i < |digits| && !Json.IsDigit(digits[i])
    then NoPort
    else if negative then Port(-(Json.NatOf(digits) as int)) else Port(Json.NatOf(digits))
  }

  /** int(text): surrounding space, an optional sign, digits. */
  function ParseInt(text: string): PortResult {
    var s := Strip(text);
    ParseDigits(s != [] && s[0] == '-', if s != [] && (s[0] == '-' || s[0] == '+') then s[1..] else s)
  }

  /** A decimal number is read as it was written, with or without a sign. */
  lemma ParseIntOfDigits(n: nat, sign: string)
    requires sign == [] || sign == "-" || sign == "+"
    ensures ParseInt(sign + Json.Digits(n)) == Port(if sign == "-" then -(n as int) else n)
  {
    var d := Json.Digits(n);
    Json.DigitsAreDigits(n);
    DigitsStand(d);
    SignIsSplit(sign, d);
  }

  lemma SignIsSplit(sign: string, d: string)
    requires sign == [] || sign == "-" || sign == "+"
    requires d != [] && forall i :: 0 <= i < |d| ==> Json.IsDigit(d[i])
    ensures ParseInt(sign + d) == ParseDigits(sign == "-", d)
  {
    var s := sign + d;
    assert s[|s| - 1] == d[|d| - 1];
    TrimmedIsFixed(s);
    if sign == [] {
      assert s == d;
    } else {
      assert s[0] == sign[0] && s[1..] == d;
    }
  }

  lemma DigitsStand(d: string)
    requires d != [] && forall i :: 0 <= i < |d| ==> Json.IsDigit(d[i])
    ensures Without(d, {'_'}) == d && !Contains(d, "__")
  {
    WithoutNothing(d, {'_'});
    ContainsUsesChars(d, "__", '_');
  }

  /** int(port) if port else None */
  function PortOf(port: HostResult): PortResult {
    match port
    case NoHost => NoPort
    case Host(Null) => NoPort
    case Host(Bool(b)) => if b then Port(1) else NoPort
    case Host(Int(n)) => if n == 0 then NoPort else Port(n)
    case Host(Str(s)) => if s == [] then NoPort else ParseInt(s)
  }

  /** extract_port on a vmess link; unlike extract_host it does not strip the config first. */
  function ExtractVmessPort(config: string): PortResult
    requires VMESS <= config
  {
    PortOf(FieldOf(Vmess.DecodeLenient(config), "port"))
  }

  function PortOfMatch(found: PortPattern.Found): PortResult
    requires found.Some? ==> PortPattern.AllDigits(found.digits)
  {
    match found
    case None => NoPort
    case Some(digits) => Port(Json.NatOf(digits))
  }

  /** extract_port */
  function ExtractPort(config: string): PortResult {
    if VMESS <= config then ExtractVmessPort(config) else PortOfMatch(PortPattern.SearchPort(config))
  }

  lemma UriHasProtocol(s: string)
    requires IsUri(s)
    ensures DetectProtocol(s) != Unknown
  {
    if VLESS <= s {
      SchemeIsKnown(VLESS, s);
    } else if TROJAN <= s {
      SchemeIsKnown(TROJAN, s);
    } else {
      SchemeIsKnown(SS, s);
    }
  }

  lemma SchemeIsKnown(scheme: string, s: string)
    requires scheme == VLESS || scheme == VMESS || scheme == TROJAN || scheme == SS
    requires scheme <= s
    ensures scheme <= Strip(s)
    ensures DetectProtocol(s) != Unknown
  {
    StripPrefix(scheme, s);
    var t := Strip(s);
    forall i | 0 <= i < |scheme| ensures Lower(t[i]) == scheme[i] {
      assert t[i] == scheme[i];
    }
  }

  /** The scheme alone decides the protocol. */
  lemma SchemeDecidesProtocol(a: string, b: string, scheme: string)
    requires scheme == VLESS || scheme == VMESS || scheme == TROJAN || scheme == SS
    requires scheme <= a && scheme <= b
    ensures DetectProtocol(a) == DetectProtocol(b)
         == if scheme == VLESS then Vless else if scheme == VMESS then VMess
            else if scheme == TROJAN then Trojan else Shadowsocks
  {
    ProtocolOf(scheme, a);
    ProtocolOf(scheme, b);
  }

  lemma ProtocolOf(scheme: string, s: string)
    requires scheme == VLESS || scheme == VMESS || scheme == TROJAN || scheme == SS
    requires scheme <= s
    ensures DetectProtocol(s)
         == if scheme == VLESS then Vless else if scheme == VMESS then VMess
            else if scheme == TROJAN then Trojan else Shadowsocks
  {
    StripPrefix(scheme, s);
    var t := Strip(s);
    forall i | 0 <= i < |scheme| ensures t[i] == scheme[i] == Lower(t[i]) {
      assert t[i] == scheme[i];
    }
    LowerSchemes(t);
  }

  /** No two schemes are prefixes of one text, whatever the case of its letters. */
  lemma LowerSchemes(t: string)
    ensures StartsWithLower(t, VMESS) ==> !StartsWithLower(t, VLESS)
    ensures StartsWithLower(t, TROJAN) ==> !StartsWithLower(t, VLESS) && !StartsWithLower(t, VMESS)
    ensures StartsWithLower(t, SS) ==>
              !StartsWithLower(t, VLESS) && !StartsWithLower(t, VMESS) && !StartsWithLower(t, TROJAN)
  {
    assert VMESS[1] == 'm' && VLESS[1] == 'l' && TROJAN[0] == 't' && SS[0] == 's';
    assert VMESS[0] == 'v' && VLESS[0] == 'v';
  }

  /** Assigning one field of a vmess link changes what is read for that field and no other. */
  lemma FieldsAfterPut(config: string, key: string, value: Json.Value, k: string)
    requires VMESS <= config && Vmess.DecodeStrict(config).Success?
    ensures var r := Vmess.Encode(Json.Put(Vmess.DecodeStrict(config).o, key, value));
            && VMESS <= r
            && FieldOf(Vmess.DecodeLenient(r), k)
            == if k != key then FieldOf(Vmess.DecodeLenient(config), k)
               else if value.Null? then NoHost else Host(value)
  {
    Vmess.PutRoundTrip(config, key, value);
    Vmess.StrictIsLenient(config);
    Json.GetAfterPut(Vmess.DecodeStrict(config).o, key, value, k);
  }

  lemma VmessHost(config: string)
    requires VMESS <= config && Strip(config) == config
    ensures ExtractHost(config) == FieldOf(Vmess.DecodeLenient(config), "add")
  {
    PrefixesExclude(config);
  }
}
