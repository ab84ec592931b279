/** The SmartDNS dashboard's view of a `smartdns.conf` file: the settings
    record `read_config` builds, the helpers that name servers and domain
    sets, and the (group, type) merge of upstream servers that both the
    parser and the add-server action perform. */
module SmartDnsConfig {
  import opened Wrappers
  import opened Text

  /** The group a server belongs to when its line names none. */
  const COMMON: string := "通用"
  const BASE_CONFIG_PATH: string := "/etc/smartdns/"

  datatype Bind = Bind(port: string, tcpPort: string)

  datatype Cache = Cache(enabled: string, size: string, persist: string, file: string,
                         checkpointTime: string)

  datatype Expired = Expired(enabled: string, ttl: string, replyTtl: string, prefetchTime: string)

  /** One upstream line as the parser meets it: `type address [-group G]`. */
  datatype Server = Server(address: string, kind: string, group: string)

  /** The upstreams of one (group, type) pair, in the order they were added. */
  datatype ServerGroup = ServerGroup(kind: string, group: string, addresses: seq<string>)

  datatype DomainSet = DomainSet(
    name: string,
    friendlyName: string,
    file: string,
    group: string,
    sourceUrl: string,
    lastUpdated: string,
    domainCount: nat,
    speedCheckMode: string,
    responseMode: string,
    addressIpv6: bool)

  datatype Config = Config(
    bind: Bind,
    cache: Cache,
    prefetch: string,
    expired: Expired,
    forceAaaaSoa: string,
    servers: seq<ServerGroup>,
    domainSets: seq<DomainSet>)

  const DEFAULT_CACHE: Cache := Cache("no", "32768", "yes", "/etc/smartdns/cache.db", "600")

  /** The settings `read_config` starts from and returns when there is no file. */
  const DEFAULTS: Config :=
    Config(Bind("5353", "5353"), DEFAULT_CACHE, "yes", Expired("yes", "600", "1", "1200"), "yes", [], [])

  /** The server type an address implies, judged case- and padding-blind:
      DNS over HTTPS for an `https://` address, DNS over TLS for a `tls://`
      address or any address mentioning port 853, plain DNS otherwise. */
  function InferServerType(address: string): (r: string)
    ensures "server" <= r
    ensures r == "server-https" <==> "https://" <= Lower(Strip(address))
    ensures r == "server-tls" <==>
      !("https://" <= Lower(Strip(address)))
      && ("tls://" <= Lower(Strip(address)) || Contains(Lower(Strip(address)), ":853"))
    ensures r == "server" <==>
      !("https://" <= Lower(Strip(address)) || "tls://" <= Lower(Strip(address))
        || Contains(Lower(Strip(address)), ":853"))
  {
    var a := Lower(Strip(address));
    if "https://" <= a then "server-https"
    else if "tls://" <= a || Contains(a, ":853") then "server-tls"
    else "server"
  }

  /** Case and surrounding whitespace of the address do not matter. */
  lemma InferIgnoresCaseAndPadding(address: string)
    ensures InferServerType(Lower(address)) == InferServerType(address)
    ensures InferServerType(Strip(address)) == InferServerType(address)
  {
    StripLower(address);
    LowerIdempotent(Strip(address));
    StripTrimmed(Strip(address));
  }

  /** A friendly name lower-cased with its spaces replaced by `sep`. */
  function Slug(friendly: string, sep: char): (r: string)
    ensures |r| == |friendly|
    ensures sep != ' ' ==> ' ' !in r
  {
    var r := ReplaceChar(Lower(friendly), ' ', sep);
    assert forall i :: 0 <= i < |r| ==> r[i] == (if Lower(friendly)[i] == ' ' then sep else Lower(friendly)[i]);
    r
  }

  /** The file a domain set's list is kept in, under the config directory. */
  function DomainFileName(friendly: string): (r: string)
    ensures BASE_CONFIG_PATH <= r
    ensures ' ' !in r
  {
    BASE_CONFIG_PATH + Slug(friendly, '_') + "_domains.conf"
  }

  /** The `-name` a new or renamed domain set is written under. */
  function SetName(friendly: string): (r: string)
    ensures ' ' !in r
  {
    Slug(friendly, '-') + "-domain-list"
  }

  /** Only ordinary spaces stand between words of the name. */
  predicate PlainSpaced(s: string) {
    forall i :: 0 <= i < |s| ==> (IsSpace(s[i]) ==> s[i] == ' ')
  }

  /** A set created from a name whose only whitespace is ordinary spaces gets a
      `-name` and a `-file` that are single words of the config line. */
  lemma NamesAreWords(friendly: string)
    requires PlainSpaced(friendly)
    ensures Token(SetName(friendly))
    ensures Token(DomainFileName(friendly))
  {
    var n := SetName(friendly);
    forall i | 0 <= i < |n|
      ensures !IsSpace(n[i])
    {
      if i < |friendly| {
        assert n[i] == Slug(friendly, '-')[i];
      }
    }
    var f := DomainFileName(friendly);
    var m := Slug(friendly, '_');
    forall i | 0 <= i < |f|
      ensures !IsSpace(f[i])
    {
      if |BASE_CONFIG_PATH| <= i < |BASE_CONFIG_PATH| + |m| {
        assert f[i] == m[i - |BASE_CONFIG_PATH|];
      }
    }
  }

  /** The file name does not depend on the case of the friendly name. */
  lemma FileNameIgnoresCase(friendly: string)
    ensures DomainFileName(Lower(friendly)) == DomainFileName(friendly)
    ensures SetName(Lower(friendly)) == SetName(friendly)
  {
    LowerIdempotent(friendly);
  }

  /** The parser takes a set's group from its `-name` up to the first '-';
      for a set named after a one-word friendly name that is the name in
      lower case. */
  lemma SetNameGroup(friendly: string)
    requires ' ' !in friendly && '-' !in friendly
    ensures BeforeFirst(SetName(friendly), '-') == Lower(friendly)
  {
    var slug := Slug(friendly, '-');
    assert slug == Lower(friendly);
    assert '-' !in Lower(friendly) by {
      forall i | 0 <= i < |friendly|
        ensures Lower(friendly)[i] != '-'
      {
      }
    }
    assert SetName(friendly) == slug + ['-'] + "domain-list";
    BeforeFirstOf(slug, '-', "domain-list");
  }

  /** The record `add_domain_set` appends for a friendly name. */
  function NewDomainSet(friendly: string, sourceUrl: string, speedCheckMode: string,
                        responseMode: string, addressIpv6: bool): (r: DomainSet)
    ensures r.name == SetName(friendly) && r.file == DomainFileName(friendly)
    ensures r.friendlyName == friendly && r.group == friendly && r.domainCount == 0
  {
    DomainSet(SetName(friendly), friendly, DomainFileName(friendly), friendly, sourceUrl,
              "尚未更新", 0, speedCheckMode, responseMode, addressIpv6)
  }

  /** A line of a domain list that counts as a domain: not blank, and not
      starting with '#' (leading spaces before a '#' do not make a comment). */
  predicate Counted(line: string) {
    Strip(line) != [] && !("#" <= line)
  }

  /** The domains of a list, in order. */
  function Domains(lines: seq<string>): (r: seq<string>)
    ensures |r| <= |lines|
    ensures forall l :: l in r <==> l in lines && Counted(l)
  {
    if lines == [] then []
    else
      var front := Domains(lines[..|lines| - 1]);
      var last := lines[|lines| - 1];
      assert lines == lines[..|lines| - 1] + [last];
      if Counted(last) then front + [last] else front
  }

  /** A domain line that appears several times counts each time: every
      counted line occurs among the domains exactly as often as in the list. */
  lemma {:induction false} DomainsKeepRepeats(lines: seq<string>)
    ensures forall l :: multiset(Domains(lines))[l] == if Counted(l) then multiset(lines)[l] else 0
  {
    if lines != [] {
      var init, last := lines[..|lines| - 1], lines[|lines| - 1];
      DomainsKeepRepeats(init);
      assert lines == init + [last];
      assert multiset(lines) == multiset(init) + multiset{last};
      if Counted(last) {
        assert Domains(lines) == Domains(init) + [last];
        assert multiset(Domains(lines)) == multiset(Domains(init)) + multiset{last};
      } else {
        assert Domains(lines) == Domains(init);
      }
    }
  }

  /** Count the domains of a list line by line. */
  method CountDomains(lines: seq<string>) returns (n: nat)
    ensures n == |Domains(lines)|
  {
    n := 0;
    var i := 0;
    while i < |lines|
      invariant 0 <= i <= |lines|
      invariant n == |Domains(lines[..i])|
    {
      assert lines[..i + 1][..i] == lines[..i];
      if Counted(lines[i]) {
        n := n + 1;
      }
      i := i + 1;
    }
    assert lines[..i] == lines;
  }

  predicate SameKey(g: ServerGroup, group: string, kind: string) {
    g.group == group && g.kind == kind
  }

  /** No two entries share a (group, type) pair. */
  predicate UniqueKeys(gs: seq<ServerGroup>) {
    forall i, j :: 0 <= i < j < |gs| ==> !SameKey(gs[j], gs[i].group, gs[i].kind)
  }

  /** Every entry holds at least one address. */
  predicate Populated(gs: seq<ServerGroup>) {
    forall i :: 0 <= i < |gs| ==> gs[i].addresses != []
  }

  /** The first entry for (group, kind), if there is one. */
  function FindGroup(gs: seq<ServerGroup>, group: string, kind: string): (k: Option<nat>)
    ensures k.Some? ==> k.value < |gs| && SameKey(gs[k.value], group, kind)
    ensures k.Some? ==> forall i :: 0 <= i < k.value ==> !SameKey(gs[i], group, kind)
    ensures k.None? ==> forall i :: 0 <= i < |gs| ==> !SameKey(gs[i], group, kind)
  {
    if gs == [] then None
    else if SameKey(gs[0], group, kind) then Some(0)
    else match FindGroup(gs[1..], group, kind)
      case None => None
      case Some(k) => Some(k + 1)
  }

  /** File `address` under (group, kind): appended to the first entry with that
      pair, or to a new entry at the end when there is none. */
  function AddAddress(gs: seq<ServerGroup>, kind: string, group: string, address: string)
    : (r: seq<ServerGroup>)
    ensures |r| == |gs| + (if FindGroup(gs, group, kind).Some? then 0 else 1)
    ensures UniqueKeys(gs) ==> UniqueKeys(r)
    ensures Populated(gs) ==> Populated(r)
  {
    match FindGroup(gs, group, kind)
    case Some(k) => gs[k := gs[k].(addresses := gs[k].addresses + [address])]
    case None => gs + [ServerGroup(kind, group, [address])]
  }

  /** `read_config`'s merge: one entry per (group, type) pair. */
  function Merge(raw: seq<Server>): (r: seq<ServerGroup>)
    ensures UniqueKeys(r) && Populated(r)
  {
    if raw == [] then []
    else
      var s := raw[|raw| - 1];
      AddAddress(Merge(raw[..|raw| - 1]), s.kind, s.group, s.address)
  }

  /** The addresses of the raw servers with a given group and type, in order. */
  function AddressesOf(raw: seq<Server>, group: string, kind: string): seq<string> {
    if raw == [] then []
    else
      var s := raw[|raw| - 1];
      AddressesOf(raw[..|raw| - 1], group, kind)
        + (if s.group == group && s.kind == kind then [s.address] else [])
  }

  /** The addresses filed under a given group and type, in entry order. */
  function AddressesFor(gs: seq<ServerGroup>, group: string, kind: string): seq<string> {
    if gs == [] then []
    else
      var g := gs[|gs| - 1];
      AddressesFor(gs[..|gs| - 1], group, kind)
        + (if SameKey(g, group, kind) then g.addresses else [])
  }

  lemma {:induction false} ForNone(gs: seq<ServerGroup>, group: string, kind: string)
    requires forall i :: 0 <= i < |gs| ==> !SameKey(gs[i], group, kind)
    ensures AddressesFor(gs, group, kind) == []
  {
    if gs != [] {
      ForNone(gs[..|gs| - 1], group, kind);
    }
  }

  /** When exactly one entry has the pair, its addresses are all there is. */
  lemma {:induction false} ForOnly(gs: seq<ServerGroup>, k: nat, group: string, kind: string)
    requires k < |gs| && SameKey(gs[k], group, kind)
    requires forall i :: 0 <= i < |gs| && i != k ==> !SameKey(gs[i], group, kind)
    ensures AddressesFor(gs, group, kind) == gs[k].addresses
  {
    var front := gs[..|gs| - 1];
    if k == |gs| - 1 {
      ForNone(front, group, kind);
    } else {
      ForOnly(front, k, group, kind);
    }
  }

  /** Entries that agree on keys, and on addresses wherever the pair matches,
      file the same addresses under that pair. */
  lemma {:induction false} ForSame(a: seq<ServerGroup>, b: seq<ServerGroup>, group: string, kind: string)
    requires |a| == |b|
    requires forall i :: 0 <= i < |a| ==> (SameKey(a[i], group, kind) <==> SameKey(b[i], group, kind))
    requires forall i :: 0 <= i < |a| && SameKey(a[i], group, kind) ==> a[i].addresses == b[i].addresses
    ensures AddressesFor(a, group, kind) == AddressesFor(b, group, kind)
  {
    if a != [] {
      ForSame(a[..|a| - 1], b[..|b| - 1], group, kind);
    }
  }

  lemma ForAppend(gs: seq<ServerGroup>, g: ServerGroup, group: string, kind: string)
    ensures AddressesFor(gs + [g], group, kind)
      == AddressesFor(gs, group, kind) + (if SameKey(g, group, kind) then g.addresses else [])
  {
    assert (gs + [g])[..|gs|] == gs;
  }

  /** Filing an address adds it under its own pair and nowhere else. */
  lemma AddAddressFiles(gs: seq<ServerGroup>, kind: string, group: string, address: string,
                        g: string, t: string)
    requires UniqueKeys(gs)
    ensures AddressesFor(AddAddress(gs, kind, group, address), g, t)
      == AddressesFor(gs, g, t) + (if g == group && t == kind then [address] else [])
  {
    var r := AddAddress(gs, kind, group, address);
    match FindGroup(gs, group, kind)
    case Some(k) =>
      if g == group && t == kind {
        ForOnly(gs, k, g, t);
        ForOnly(r, k, g, t);
      } else {
        ForSame(gs, r, g, t);
      }
    case None =>
      ForAppend(gs, ServerGroup(kind, group, [address]), g, t);
  }

  /** Merging files every raw address under its own group and type, in the
      order the lines came. */
  lemma {:induction false} MergeAddresses(raw: seq<Server>, g: string, t: string)
    ensures AddressesFor(Merge(raw), g, t) == AddressesOf(raw, g, t)
  {
    if raw != [] {
      var s := raw[|raw| - 1];
      MergeAddresses(raw[..|raw| - 1], g, t);
      AddAddressFiles(Merge(raw[..|raw| - 1]), s.kind, s.group, s.address, g, t);
    }
  }

  /** Where a (group, type) pair first occurs among the raw servers. */
  function FirstWith(raw: seq<Server>, group: string, kind: string): (k: Option<nat>)
    ensures k.Some? ==> k.value < |raw| && raw[k.value].group == group && raw[k.value].kind == kind
    ensures k.Some? ==> forall i :: 0 <= i < k.value ==> !(raw[i].group == group && raw[i].kind == kind)
    ensures k.None? ==> forall i :: 0 <= i < |raw| ==> !(raw[i].group == group && raw[i].kind == kind)
  {
    if raw == [] then None
    else if raw[0].group == group && raw[0].kind == kind then Some(0)
    else match FirstWith(raw[1..], group, kind)
      case None => None
      case Some(k) => Some(k + 1)
  }

  lemma FirstWithAppend(raw: seq<Server>, s: Server, group: string, kind: string)
    ensures FirstWith(raw, group, kind).Some? ==>
      FirstWith(raw + [s], group, kind) == FirstWith(raw, group, kind)
    ensures FirstWith(raw, group, kind).None? && s.group == group && s.kind == kind ==>
      FirstWith(raw + [s], group, kind) == Some(|raw|)
  {
    var all := raw + [s];
    var h := FirstWith(all, group, kind);
    match FirstWith(raw, group, kind)
    case Some(f) =>
      assert all[f] == raw[f];
    case None =>
      if s.group == group && s.kind == kind {
        assert all[|raw|] == s;
      }
  }

  /** Filing an address keeps every existing entry's pair where it was. */
  lemma AddAddressKeys(gs: seq<ServerGroup>, kind: string, group: string, address: string)
    ensures forall k :: 0 <= k < |gs| ==>
      AddAddress(gs, kind, group, address)[k].group == gs[k].group
      && AddAddress(gs, kind, group, address)[k].kind == gs[k].kind
    ensures FindGroup(gs, group, kind).Some? ==>
      SameKey(AddAddress(gs, kind, group, address)[FindGroup(gs, group, kind).value], group, kind)
    ensures FindGroup(gs, group, kind).None? ==>
      AddAddress(gs, kind, group, address) == gs + [ServerGroup(kind, group, [address])]
  {
  }

  /** Every pair that occurs among the raw servers has a merged entry. */
  lemma {:induction false} MergeCovers(raw: seq<Server>)
    ensures forall i :: 0 <= i < |raw| ==> FindGroup(Merge(raw), raw[i].group, raw[i].kind).Some?
  {
    if raw != [] {
      var front := raw[..|raw| - 1];
      var s := raw[|raw| - 1];
      var m := Merge(front);
      var r := Merge(raw);
      MergeCovers(front);
      AddAddressKeys(m, s.kind, s.group, s.address);
      forall i | 0 <= i < |raw|
        ensures FindGroup(r, raw[i].group, raw[i].kind).Some?
      {
        if i < |front| {
          assert raw[i] == front[i];
          var j := FindGroup(m, raw[i].group, raw[i].kind).value;
          assert SameKey(r[j], raw[i].group, raw[i].kind);
        } else if FindGroup(m, s.group, s.kind).None? {
          assert SameKey(r[|m|], s.group, s.kind);
        }
      }
    }
  }

  /** Every merged entry's pair occurs among the raw servers, and entries are
      listed in order of the first occurrence of their pair. */
  lemma {:induction false} MergeOrder(raw: seq<Server>)
    ensures forall k :: 0 <= k < |Merge(raw)| ==> FirstWith(raw, Merge(raw)[k].group, Merge(raw)[k].kind).Some?
    ensures forall k, l :: 0 <= k < l < |Merge(raw)| ==>
      FirstWith(raw, Merge(raw)[k].group, Merge(raw)[k].kind).value
        < FirstWith(raw, Merge(raw)[l].group, Merge(raw)[l].kind).value
  {
    if raw != [] {
      var front := raw[..|raw| - 1];
      var s := raw[|raw| - 1];
      assert raw == front + [s];
      var m := Merge(front);
      var r := Merge(raw);
      MergeOrder(front);
      AddAddressKeys(m, s.kind, s.group, s.address);
      forall k | 0 <= k < |m|
        ensures FirstWith(raw, r[k].group, r[k].kind) == FirstWith(front, m[k].group, m[k].kind)
      {
        FirstWithAppend(front, s, m[k].group, m[k].kind);
      }
      if FindGroup(m, s.group, s.kind).None? {
        FirstWithAppend(front, s, s.group, s.kind);
        MergeCovers(front);
        assert FirstWith(front, s.group, s.kind).None?;
        assert r[|m|] == ServerGroup(s.kind, s.group, [s.address]);
        assert FirstWith(raw, s.group, s.kind) == Some(|front|);
        assert |r| == |m| + 1;
      } else {
        assert |r| == |m|;
      }
    }
  }

  /** `add_server`: an empty or missing address is refused; otherwise the
      address joins the entry for its inferred type and the requested group
      (the common group when none is given). */
  function AddServer(cfg: Config, address: Option<string>, group: Option<string>): (r: Option<Config>)
    ensures r.None? <==> address.None? || address.value == []
    ensures r.Some? ==> r.value.(servers := cfg.servers) == cfg
  {
    if address.None? || address.value == [] then None
    else
      var a := address.value;
      Some(cfg.(servers := AddAddress(cfg.servers, InferServerType(a), group.GetOr(COMMON), a)))
  }

  /** Adding a server files its address under the inferred type and the
      chosen group, adds nothing anywhere else, and never creates a second
      entry for a pair that already has one. */
  lemma AddServerFiles(cfg: Config, address: string, group: Option<string>, g: string, t: string)
    requires address != [] && UniqueKeys(cfg.servers)
    ensures AddServer(cfg, Some(address), group).Some?
    ensures UniqueKeys(AddServer(cfg, Some(address), group).value.servers)
    ensures AddressesFor(AddServer(cfg, Some(address), group).value.servers, g, t)
      == AddressesFor(cfg.servers, g, t)
         + (if g == group.GetOr(COMMON) && t == InferServerType(address) then [address] else [])
  {
    AddAddressFiles(cfg.servers, InferServerType(address), group.GetOr(COMMON), address, g, t);
  }
}
