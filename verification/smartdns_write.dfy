/** `write_config`: the `smartdns.conf` text the dashboard writes for a
    settings record, as the sequence of its lines (without line breaks). */
module SmartDnsWrite {
  import opened Text
  import opened Sorting
  import opened SmartDnsConfig

  /** Server entries are ordered by group name, as Python compares strings. */
  predicate GroupLe(a: ServerGroup, b: ServerGroup) {
    StrLe(a.group, b.group)
  }

  lemma GroupOrder(gs: seq<ServerGroup>)
    ensures TotalPreorderOn(gs, GroupLe)
  {
    forall a, b | a in gs && b in gs
      ensures GroupLe(a, b) || GroupLe(b, a)
    {
      StrLeTotal(a.group, b.group);
    }
    forall a, b, c | a in gs && b in gs && c in gs && GroupLe(a, b) && GroupLe(b, c)
      ensures GroupLe(a, c)
    {
      StrLeTrans(a.group, b.group, c.group);
    }
  }

  /** The entries of a named group, in their order. */
  function Named(gs: seq<ServerGroup>): (r: seq<ServerGroup>)
    ensures forall i :: 0 <= i < |r| ==> r[i].group != COMMON && r[i] in gs
  {
    if gs == [] then []
    else
      var g := gs[|gs| - 1];
      Named(gs[..|gs| - 1]) + (if g.group != COMMON then [g] else [])
  }

  /** The entries of the common group, in their order. */
  function Common(gs: seq<ServerGroup>): (r: seq<ServerGroup>)
    ensures forall i :: 0 <= i < |r| ==> r[i].group == COMMON && r[i] in gs
  {
    if gs == [] then []
    else
      var g := gs[|gs| - 1];
      Common(gs[..|gs| - 1]) + (if g.group == COMMON then [g] else [])
  }

  /** Appending one entry adds it to exactly one of the two lists. */
  lemma PartitionStep(front: seq<ServerGroup>, g: ServerGroup)
    requires multiset(Named(front)) + multiset(Common(front)) == multiset(front)
    ensures multiset(Named(front + [g])) + multiset(Common(front + [g])) == multiset(front + [g])
  {
    var gs := front + [g];
    assert gs[..|gs| - 1] == front;
  }

  /** Every entry is named or common, and none is both. */
  lemma {:induction false} Partition(gs: seq<ServerGroup>)
    ensures multiset(Named(gs)) + multiset(Common(gs)) == multiset(gs)
  {
    if gs != [] {
      var front := gs[..|gs| - 1];
      var g := gs[|gs| - 1];
      assert gs == front + [g];
      Partition(front);
      PartitionStep(front, g);
    }
  }

  /** The named groups sorted by group name. The sort is stable, so each
      (group, type) pair keeps its place among equal names; that is
      `SmartDnsFiling.SortFiles`. */
  function SortedNamed(gs: seq<ServerGroup>): (r: seq<ServerGroup>)
    ensures multiset(r) == multiset(Named(gs))
    ensures SortedBy(r, GroupLe)
  {
    GroupOrder(Named(gs));
    InsertionSort(Named(gs), GroupLe)
  }

  /** The order the entries are written in: the sorted named groups, then
      the common group. */
  function Ordered(gs: seq<ServerGroup>): (r: seq<ServerGroup>)
    ensures multiset(r) == multiset(gs)
  {
    Partition(gs);
    SortedNamed(gs) + Common(gs)
  }

  const NAMED_HEADING: string := "# 非通用组服务器"
  const COMMON_HEADING: string := "# 通用组服务器"
  const SETS_HEADING: string := "# 域名组设置"

  /** The lines written for one address: a named group's entry carries a
      comment and `-group G -exclude-default-group`; a common one is bare. */
  function ServerEntry(kind: string, group: string, address: string, named: bool): seq<string> {
    if named then
      ["# 所属域名组：" + group, Words([kind, address, "-group", group, "-exclude-default-group"])]
    else [Words([kind, address])]
  }

  function AddressLines(kind: string, group: string, addresses: seq<string>, named: bool)
    : seq<string>
  {
    if addresses == [] then []
    else
      AddressLines(kind, group, addresses[..|addresses| - 1], named)
        + ServerEntry(kind, group, addresses[|addresses| - 1], named)
  }

  function ServerLines(gs: seq<ServerGroup>, named: bool): seq<string> {
    if gs == [] then []
    else
      var g := gs[|gs| - 1];
      ServerLines(gs[..|gs| - 1], named) + AddressLines(g.kind, g.group, g.addresses, named)
  }

  /** The options of a set's `domain-rules` line: a mode is written only
      when it is not `none`, and IPv6 answers only when enabled. */
  function RuleWords(ds: DomainSet): seq<string> {
    ["domain-rules", "/domain-set:" + ds.name + "/", "-c", "none", "-nameserver", ds.group]
      + (if ds.speedCheckMode != "none" then ["-speed-check-mode", ds.speedCheckMode] else [])
      + (if ds.responseMode != "none" then ["-response-mode", ds.responseMode] else [])
      + (if ds.addressIpv6 then ["-address", "-6"] else [])
  }

  /** The block written for one domain set; the `# Source =` line only when
      the set has a source URL. */
  function SetLines(ds: DomainSet): seq<string> {
    ["# " + ds.group + "域名组文件路径和延迟测试方法 / IPv6是否启用等设置",
     Words(["domain-set", "-name", ds.name, "-file", ds.file])]
      + (if ds.sourceUrl != "" then ["# Source = " + ds.sourceUrl] else [])
      + [Words(RuleWords(ds))]
  }

  function SetSection(dss: seq<DomainSet>): seq<string> {
    if dss == [] then [] else SetLines(dss[0]) + SetSection(dss[1..])
  }

  /** Every set has its `domain-set` header and its `domain-rules` line in
      the section. */
  lemma {:induction false} SetSectionLists(dss: seq<DomainSet>, ds: DomainSet)
    requires ds in dss
    ensures Words(["domain-set", "-name", ds.name, "-file", ds.file]) in SetSection(dss)
    ensures Words(RuleWords(ds)) in SetSection(dss)
    decreases |dss|
  {
    var head := SetLines(dss[0]);
    assert head[1] == Words(["domain-set", "-name", dss[0].name, "-file", dss[0].file]);
    assert head[|head| - 1] == Words(RuleWords(dss[0]));
    if ds != dss[0] {
      SetSectionLists(dss[1..], ds);
    }
  }

  function Header(cfg: Config): seq<string> {
    ["# SmartDNS 配置文件",
     Words(["bind", "[::]:" + cfg.bind.port]),
     Words(["bind-tcp", "[::]:" + cfg.bind.tcpPort]),
     ""]
  }

  /** The cache block, written only when the cache is enabled. */
  function CacheBlock(c: Cache): seq<string> {
    if c.enabled == "yes" then
      ["# 缓存设置",
       Words(["cache-size", c.size]),
       Words(["cache-persist", c.persist]),
       Words(["cache-file", c.file]),
       Words(["cache-checkpoint-time", c.checkpointTime]),
       ""]
    else []
  }

  function Tuning(cfg: Config): seq<string> {
    ["# 缓存预获取",
     Words(["prefetch-domain", cfg.prefetch]),
     "# 乐观缓存",
     Words(["serve-expired", cfg.expired.enabled]),
     Words(["serve-expired-ttl", cfg.expired.ttl]),
     Words(["serve-expired-reply-ttl", cfg.expired.replyTtl]),
     Words(["serve-expired-prefetch-time", cfg.expired.prefetchTime]),
     "",
     "# 全局禁用 IPv6",
     Words(["force-AAAA-SOA", cfg.forceAaaaSoa]),
     ""]
  }

  function ServerSection(gs: seq<ServerGroup>): seq<string> {
    [NAMED_HEADING]
      + ServerLines(SortedNamed(gs), true)
      + ["", COMMON_HEADING]
      + ServerLines(Common(gs), false)
      + ["", SETS_HEADING]
  }

  /** The whole file. */
  function WriteConfig(cfg: Config): (r: seq<string>)
    ensures |r| >= 3 && r[0] == "# SmartDNS 配置文件" && r[1] == Words(["bind", "[::]:" + cfg.bind.port])
    ensures r[2] == Words(["bind-tcp", "[::]:" + cfg.bind.tcpPort])
  {
    Header(cfg) + CacheBlock(cfg.cache) + Tuning(cfg) + ServerSection(cfg.servers)
      + SetSection(cfg.domainSets)
  }

  /** The file lists the cache size when the cache is enabled, and every
      domain set's header and rules line. */
  lemma WrittenLists(cfg: Config)
    ensures cfg.cache.enabled == "yes" ==> Words(["cache-size", cfg.cache.size]) in WriteConfig(cfg)
    ensures forall ds :: ds in cfg.domainSets ==>
      && Words(["domain-set", "-name", ds.name, "-file", ds.file]) in WriteConfig(cfg)
      && Words(RuleWords(ds)) in WriteConfig(cfg)
  {
    var sets := SetSection(cfg.domainSets);
    var pre := Header(cfg) + CacheBlock(cfg.cache) + Tuning(cfg) + ServerSection(cfg.servers);
    assert WriteConfig(cfg) == pre + sets;
    forall ds | ds in cfg.domainSets
      ensures Words(["domain-set", "-name", ds.name, "-file", ds.file]) in sets
      ensures Words(RuleWords(ds)) in sets
    {
      SetSectionLists(cfg.domainSets, ds);
    }
    if cfg.cache.enabled == "yes" {
      assert pre[5] == Words(["cache-size", cfg.cache.size]);
    }
  }
}
