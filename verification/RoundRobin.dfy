/** Clean IPs dealt out over the stored configs (core/ip_manager.py, apply_ips_to_configs). */
module RoundRobin {
  import ConfigUtils
  import Division
  import IpManager
  import Json

  datatype MaybeText = Missing | Given(text: string)

  datatype ConfigRow = ConfigRow(raw: string, watermarked: MaybeText)

  /** `config_row.watermarked_config or config_row.raw_config` */
  function TextOf(row: ConfigRow): string {
    match row.watermarked
    case Missing => row.raw
    case Given(t) => if t == [] then row.raw else t
  }

  /** How often the inner loop runs; range of a negative number is empty. */
  function Rounds(per: int): nat {
    if per < 0 then 0 else per
  }

  /** One line of the output: which IP goes into which config. */
  datatype Pair = Pair(ip: nat, config: nat)

  /** The pairs of one IP: the configs in turn, starting over when they run out. */
  function Round(ip: nat, n: nat, rounds: nat): (r: seq<Pair>)
    requires n > 0
    ensures |r| == rounds
  {
    if rounds == 0 then [] else Round(ip, n, rounds - 1) + [Pair(ip, (rounds - 1) % n)]
  }

  function Deal(ips: nat, n: nat, per: nat): seq<Pair>
    requires n > 0
  {
    if ips == 0 then [] else Deal(ips - 1, n, per) + Round(ips - 1, n, per)
  }

  ghost predicate Templates(ips: seq<string>) {
    forall m :: 0 <= m < |ips| ==> '\\' !in ips[m]
  }

  predicate InRange(p: Pair, ips: nat, n: nat) {
    p.ip < ips && p.config < n
  }

  /** The line that a pair stands for. */
  function Line(ips: seq<string>, configs: seq<ConfigRow>, p: Pair): string
    requires Templates(ips) && InRange(p, |ips|, |configs|)
  {
    IpManager.Applied(TextOf(configs[p.config]), ips[p.ip])
  }

  ghost predicate LinesFor(ips: seq<string>, configs: seq<ConfigRow>, pairs: seq<Pair>, output: seq<string>)
    requires Templates(ips)
  {
    && |output| == |pairs|
    && forall k :: 0 <= k < |pairs| ==>
         InRange(pairs[k], |ips|, |configs|) && output[k] == Line(ips, configs, pairs[k])
  }

  /** apply_ips_to_configs */
  method ApplyIpsToConfigs(ips: seq<string>, configs: seq<ConfigRow>, applyPerIp: int := 5)
    returns (output: seq<string>)
    requires Templates(ips)
    ensures configs == [] ==> output == []
    ensures configs != [] ==> LinesFor(ips, configs, Deal(|ips|, |configs|, Rounds(applyPerIp)), output)
  {
    output := [];
    if configs == [] {
      return;
    }
    var n, per := |configs|, Rounds(applyPerIp);
    for i := 0 to |ips|
      invariant LinesFor(ips, configs, Deal(i, n, per), output)
    {
      assert Deal(i, n, per) + [] == Deal(i, n, per);
      for j := 0 to per
        invariant LinesFor(ips, configs, Deal(i, n, per) + Round(i, n, j), output)
      {
        var line := ApplyOne(TextOf(configs[j % n]), ips[i]);
        LinesAppend(ips, configs, Deal(i, n, per), Round(i, n, j), output, Pair(i, j % n), line);
        output := output + [line];
      }
    }
  }

  lemma LinesAppend(ips: seq<string>, configs: seq<ConfigRow>, before: seq<Pair>, round: seq<Pair>,
                    output: seq<string>, p: Pair, line: string)
    requires Templates(ips) && LinesFor(ips, configs, before + round, output)
    requires InRange(p, |ips|, |configs|) && line == Line(ips, configs, p)
    ensures LinesFor(ips, configs, before + (round + [p]), output + [line])
  {
    assert before + (round + [p]) == before + round + [p];
  }

  /** `modified` if there is one, else the config as it was. */
  method ApplyOne(text: string, ip: string) returns (line: string)
    requires '\\' !in ip
    ensures line == IpManager.Applied(text, ip)
  {
    line := text;
    match IpManager.ApplyIp(text, ip) {
      case Unchanged =>
      case Changed(modified) =>
        if modified != [] {
          line := modified;
        }
    }
  }

  lemma {:induction false} RoundAt(ip: nat, n: nat, rounds: nat, j: nat)
    requires n > 0 && j < rounds
    ensures Round(ip, n, rounds)[j] == Pair(ip, j % n)
  {
    if j < rounds - 1 { RoundAt(ip, n, rounds - 1, j); }
  }

  /** The output has a line for every IP and every round. */
  lemma {:induction false} DealLength(ips: nat, n: nat, per: nat)
    requires n > 0
    ensures |Deal(ips, n, per)| == ips * per
  {
    if ips > 0 {
      DealLength(ips - 1, n, per);
      Division.OneMore(ips - 1, per);
    }
  }

  /** Line j of the block of IP i takes config j mod n. */
  lemma {:induction false} LineAt(ips: nat, n: nat, per: nat, i: nat, j: nat)
    requires n > 0 && i < ips && j < per
    ensures Division.At(i, per, j) < |Deal(ips, n, per)|
    ensures Deal(ips, n, per)[Division.At(i, per, j)] == Pair(i, j % n)
  {
    DealLength(ips - 1, n, per);
    if i < ips - 1 {
      Division.AtIsWithin(i, per, j, ips - 1);
      LineAt(ips - 1, n, per, i, j);
    } else {
      RoundAt(i, n, per, j);
    }
  }

  /** Line k pairs IP k / per with config (k mod per) mod n. */
  lemma EveryLine(ips: nat, n: nat, per: nat, k: nat)
    requires n > 0 && k < |Deal(ips, n, per)|
    ensures per > 0 && Deal(ips, n, per)[k] == Pair(k / per, k % per % n)
  {
    DealLength(ips, n, per);
    Division.EveryIndex(k, per, ips);
    LineAt(ips, n, per, k / per, k % per);
  }

  /** How often config c is used for one IP. */
  function Uses(round: seq<Pair>, c: nat): nat {
    if round == [] then 0
    else Uses(round[..|round| - 1], c) + (if round[|round| - 1].config == c then 1 else 0)
  }

  /** Fairness: for each IP every config is used per / n times, the first per mod n once more. */
  lemma {:induction false} UsesAreFair(ip: nat, n: nat, per: nat, c: nat)
    requires c < n
    ensures Uses(Round(ip, n, per), c) == per / n + (if c < per % n then 1 else 0)
  {
    if per > 0 {
      UsesAreFair(ip, n, per - 1, c);
      Division.NextRound(per - 1, n);
      assert Round(ip, n, per)[..per - 1] == Round(ip, n, per - 1);
    }
  }

  lemma LineIsRead(ips: seq<string>, configs: seq<ConfigRow>, p: Pair)
    requires Templates(ips) && InRange(p, |ips|, |configs|)
    requires IpManager.NamesServer(TextOf(configs[p.config])) && ips[p.ip] != [] && ':' !in ips[p.ip]
    ensures ConfigUtils.ExtractHost(Line(ips, configs, p)) == ConfigUtils.Host(Json.Str(ips[p.ip]))
  {
    IpManager.AppliedLineIsRead(TextOf(configs[p.config]), ips[p.ip]);
  }

  /** A line whose config is a URI link that names a server is read back with the line's own IP. */
  lemma LineHasItsIp(ips: seq<string>, configs: seq<ConfigRow>, pairs: seq<Pair>, output: seq<string>, k: nat)
    requires Templates(ips) && LinesFor(ips, configs, pairs, output) && k < |pairs|
    requires InRange(pairs[k], |ips|, |configs|)
    requires IpManager.NamesServer(TextOf(configs[pairs[k].config]))
    requires ips[pairs[k].ip] != [] && ':' !in ips[pairs[k].ip]
    ensures ConfigUtils.ExtractHost(output[k]) == ConfigUtils.Host(Json.Str(ips[pairs[k].ip]))
  {
    LineIsRead(ips, configs, pairs[k]);
  }
}
