/** Reading back what `write_config` wrote: which settings, servers and
    domain sets `read_config` recovers from the file, and under which
    conditions on the values (single words, no `:` in a port, no option
    word where a value belongs). */
module SmartDnsRoundTrip {
  import opened Wrappers
  import opened Text
  import opened SmartDnsConfig
  import opened SmartDnsRead
  import opened SmartDnsWrite
  import opened SmartDnsFiling

  /** No line of `lines` opens a domain set. */
  predicate Plain(lines: seq<string>) {
    forall i :: 0 <= i < |lines| ==> !OpensSet(lines[i])
  }

  lemma StepsCons(l: string, rest: seq<string>, st: Scan)
    ensures Steps([l] + rest, st) == Steps(rest, StepLine(st, l))
  {
    assert ([l] + rest)[1..] == rest;
  }

  lemma BlankLine(st: Scan)
    ensures !OpensSet("") && StepLine(st, "") == st
  {
    assert Trimmed("");
    StripTrimmed("");
  }

  /** A keyword line with one value word. */
  lemma SettingLine(st: Scan, kw: string, v: string, k: Keyword)
    requires KeywordWord(kw, k) && Token(v)
    ensures !OpensSet(Words([kw, v]))
    ensures StepLine(st, Words([kw, v])) == ApplySetting(st, [kw, v])
  {
    KeywordLine(st, [kw, v]);
  }

  /** Bind addresses are written `[::]:P`; `P` must not hold a ':'. */
  predicate PortWord(p: string) {
    NoSpace(p) && ':' !in p
  }

  lemma AddressWord(port: string)
    requires PortWord(port)
    ensures Token("[::]:" + port)
  {
    var w := "[::]:" + port;
    forall i | 0 <= i < |w|
      ensures !IsSpace(w[i])
    {
      if i >= 5 {
        assert w[i] == port[i - 5];
      }
    }
  }

  lemma BindRead(st: Scan, port: string)
    requires PortWord(port)
    ensures !OpensSet(Words(["bind", "[::]:" + port]))
    ensures StepLine(st, Words(["bind", "[::]:" + port]))
      == st.(cfg := st.cfg.(bind := st.cfg.bind.(port := port)))
  {
    BindWord();
    AddressWord(port);
    SettingLine(st, "bind", "[::]:" + port, BindUdp);
    PortAfterColon(port);
  }

  lemma BindTcpRead(st: Scan, port: string)
    requires PortWord(port)
    ensures !OpensSet(Words(["bind-tcp", "[::]:" + port]))
    ensures StepLine(st, Words(["bind-tcp", "[::]:" + port]))
      == st.(cfg := st.cfg.(bind := st.cfg.bind.(tcpPort := port)))
  {
    BindTcpWord();
    AddressWord(port);
    SettingLine(st, "bind-tcp", "[::]:" + port, BindTcp);
    PortAfterColon(port);
  }

  /** Applying a step function line by line; `Steps` is this fold with
      `StepLine`, and lemmas about the fold do not look inside the step. */
  function Fold<S>(f: (S, string) -> S, lines: seq<string>, s: S): S
    decreases |lines|
  {
    if lines == [] then s else Fold(f, lines[1..], f(s, lines[0]))
  }

  lemma {:induction false} StepsFold(lines: seq<string>, st: Scan)
    ensures Steps(lines, st) == Fold(StepLine, lines, st)
    decreases |lines|
  {
    if lines != [] {
      StepsFold(lines[1..], StepLine(st, lines[0]));
    }
  }

  lemma {:induction false} FoldAppend<S>(f: (S, string) -> S, a: seq<string>, b: seq<string>, s: S)
    ensures Fold(f, a + b, s) == Fold(f, b, Fold(f, a, s))
    decreases |a|
  {
    if a == [] {
      assert a + b == b;
    } else {
      assert (a + b)[1..] == a[1..] + b;
      FoldAppend(f, a[1..], b, f(s, a[0]));
    }
  }

  lemma Fold2<S>(f: (S, string) -> S, a: string, b: string, s: S)
    ensures Fold(f, [a, b], s) == f(f(s, a), b)
  {
    assert [a, b][1..] == [b];
    assert Fold(f, [a, b], s) == Fold(f, [b], f(s, a));
    assert [b][1..] == [];
  }

  lemma Fold3<S>(f: (S, string) -> S, a: string, b: string, c: string, s: S)
    ensures Fold(f, [a, b, c], s) == f(f(f(s, a), b), c)
  {
    assert [a, b, c] == [a, b] + [c];
    FoldAppend(f, [a, b], [c], s);
    Fold2(f, a, b, s);
    assert [c][1..] == [];
  }

  lemma Fold4<S>(f: (S, string) -> S, a: string, b: string, c: string, d: string, s: S)
    ensures Fold(f, [a, b, c, d], s) == f(f(f(f(s, a), b), c), d)
  {
    assert [a, b, c, d] == [a, b] + [c, d];
    FoldAppend(f, [a, b], [c, d], s);
    Fold2(f, a, b, s);
    Fold2(f, c, d, f(f(s, a), b));
  }

  lemma Fold6<S>(f: (S, string) -> S, a: string, b: string, c: string, d: string,
                 e: string, g: string, s: S)
    ensures Fold(f, [a, b, c, d, e, g], s) == f(f(f(f(f(f(s, a), b), c), d), e), g)
  {
    assert [a, b, c, d, e, g] == [a, b, c, d] + [e, g];
    FoldAppend(f, [a, b, c, d], [e, g], s);
    Fold4(f, a, b, c, d, s);
    Fold2(f, e, g, f(f(f(f(s, a), b), c), d));
  }

  lemma Fold5<S>(f: (S, string) -> S, a: string, b: string, c: string, d: string, e: string, s: S)
    ensures Fold(f, [a, b, c, d, e], s) == f(f(f(f(f(s, a), b), c), d), e)
  {
    assert [a, b, c, d, e] == [a, b, c, d] + [e];
    FoldAppend(f, [a, b, c, d], [e], s);
    Fold4(f, a, b, c, d, s);
    assert [e][1..] == [];
  }

  predicate Closed(line: string) {
    !OpensSet(line)
  }

  lemma Each6(p: string -> bool, a: string, b: string, c: string, d: string, e: string, g: string)
    requires p(a) && p(b) && p(c) && p(d) && p(e) && p(g)
    ensures forall i :: 0 <= i < 6 ==> p([a, b, c, d, e, g][i])
  {
  }

  lemma Each4(p: string -> bool, a: string, b: string, c: string, d: string)
    requires p(a) && p(b) && p(c) && p(d)
    ensures forall i :: 0 <= i < 4 ==> p([a, b, c, d][i])
  {
  }

  lemma Each3(p: string -> bool, a: string, b: string, c: string)
    requires p(a) && p(b) && p(c)
    ensures forall i :: 0 <= i < 3 ==> p([a, b, c][i])
  {
  }

  lemma Plain4(a: string, b: string, c: string, d: string)
    requires !OpensSet(a) && !OpensSet(b) && !OpensSet(c) && !OpensSet(d)
    ensures Plain([a, b, c, d])
  {
    Each4(Closed, a, b, c, d);
  }

  lemma Each2(p: string -> bool, a: string, b: string)
    requires p(a) && p(b)
    ensures forall i :: 0 <= i < 2 ==> p([a, b][i])
  {
  }

  lemma Plain2(a: string, b: string)
    requires !OpensSet(a) && !OpensSet(b)
    ensures Plain([a, b])
  {
    Each2(Closed, a, b);
  }

  lemma Plain3(a: string, b: string, c: string)
    requires !OpensSet(a) && !OpensSet(b) && !OpensSet(c)
    ensures Plain([a, b, c])
  {
    Each3(Closed, a, b, c);
  }

  lemma Plain6(a: string, b: string, c: string, d: string, e: string, g: string)
    requires !OpensSet(a) && !OpensSet(b) && !OpensSet(c)
    requires !OpensSet(d) && !OpensSet(e) && !OpensSet(g)
    ensures Plain([a, b, c, d, e, g])
  {
    Each6(Closed, a, b, c, d, e, g);
  }

  /** The opening lines give back both listener ports. */
  lemma HeaderRead(cfg: Config, st: Scan)
    requires PortWord(cfg.bind.port) && PortWord(cfg.bind.tcpPort)
    ensures Plain(Header(cfg))
    ensures Steps(Header(cfg), st) == st.(cfg := st.cfg.(bind := cfg.bind))
  {
    var a := "# SmartDNS 配置文件";
    var b := Words(["bind", "[::]:" + cfg.bind.port]);
    var c := Words(["bind-tcp", "[::]:" + cfg.bind.tcpPort]);
    assert Header(cfg) == [a, b, c, ""];
    CommentLine(st, a);
    BindRead(st, cfg.bind.port);
    var s1 := StepLine(st, b);
    BindTcpRead(s1, cfg.bind.tcpPort);
    var s2 := StepLine(s1, c);
    BlankLine(s2);
    Plain4(a, b, c, "");
    StepsFold(Header(cfg), st);
    Fold4(StepLine, a, b, c, "", st);
  }

  lemma CacheSizeRead(st: Scan, kw: string, v: string)
    requires KeywordWord(kw, CacheSize) && Token(v)
    ensures !OpensSet(Words([kw, v]))
    ensures StepLine(st, Words([kw, v])) == st.(cfg := st.cfg.(cache := st.cfg.cache.(size := v, enabled := "yes")))
  {
    SettingLine(st, kw, v, CacheSize);
  }

  lemma CachePersistRead(st: Scan, kw: string, v: string)
    requires KeywordWord(kw, CachePersist) && Token(v)
    ensures !OpensSet(Words([kw, v]))
    ensures StepLine(st, Words([kw, v])) == st.(cfg := st.cfg.(cache := st.cfg.cache.(persist := v)))
  {
    SettingLine(st, kw, v, CachePersist);
  }

  lemma CacheFileRead(st: Scan, kw: string, v: string)
    requires KeywordWord(kw, CacheFile) && Token(v)
    ensures !OpensSet(Words([kw, v]))
    ensures StepLine(st, Words([kw, v])) == st.(cfg := st.cfg.(cache := st.cfg.cache.(file := v)))
  {
    SettingLine(st, kw, v, CacheFile);
  }

  lemma CheckpointRead(st: Scan, kw: string, v: string)
    requires KeywordWord(kw, CacheCheckpoint) && Token(v)
    ensures !OpensSet(Words([kw, v]))
    ensures StepLine(st, Words([kw, v])) == st.(cfg := st.cfg.(cache := st.cfg.cache.(checkpointTime := v)))
  {
    SettingLine(st, kw, v, CacheCheckpoint);
  }

  lemma PrefetchRead(st: Scan, kw: string, v: string)
    requires KeywordWord(kw, Prefetch) && Token(v)
    ensures !OpensSet(Words([kw, v]))
    ensures StepLine(st, Words([kw, v])) == st.(cfg := st.cfg.(prefetch := v))
  {
    SettingLine(st, kw, v, Prefetch);
  }

  lemma ServeExpiredRead(st: Scan, kw: string, v: string)
    requires KeywordWord(kw, ServeExpired) && Token(v)
    ensures !OpensSet(Words([kw, v]))
    ensures StepLine(st, Words([kw, v])) == st.(cfg := st.cfg.(expired := st.cfg.expired.(enabled := v)))
  {
    SettingLine(st, kw, v, ServeExpired);
  }

  lemma ExpiredTtlRead(st: Scan, kw: string, v: string)
    requires KeywordWord(kw, ExpiredTtl) && Token(v)
    ensures !OpensSet(Words([kw, v]))
    ensures StepLine(st, Words([kw, v])) == st.(cfg := st.cfg.(expired := st.cfg.expired.(ttl := v)))
  {
    SettingLine(st, kw, v, ExpiredTtl);
  }

  lemma ReplyTtlRead(st: Scan, kw: string, v: string)
    requires KeywordWord(kw, ExpiredReplyTtl) && Token(v)
    ensures !OpensSet(Words([kw, v]))
    ensures StepLine(st, Words([kw, v])) == st.(cfg := st.cfg.(expired := st.cfg.expired.(replyTtl := v)))
  {
    SettingLine(st, kw, v, ExpiredReplyTtl);
  }

  lemma PrefetchTimeRead(st: Scan, kw: string, v: string)
    requires KeywordWord(kw, ExpiredPrefetch) && Token(v)
    ensures !OpensSet(Words([kw, v]))
    ensures StepLine(st, Words([kw, v])) == st.(cfg := st.cfg.(expired := st.cfg.expired.(prefetchTime := v)))
  {
    SettingLine(st, kw, v, ExpiredPrefetch);
  }

  lemma AaaaRead(st: Scan, kw: string, v: string)
    requires KeywordWord(kw, ForceAaaaSoa) && Token(v)
    ensures !OpensSet(Words([kw, v]))
    ensures StepLine(st, Words([kw, v])) == st.(cfg := st.cfg.(forceAaaaSoa := v))
  {
    SettingLine(st, kw, v, ForceAaaaSoa);
  }

  /** An enabled cache block gives back the whole cache record. */
  lemma CacheBlockRead(c: Cache, st: Scan)
    requires c.enabled == "yes"
    requires Token(c.size) && Token(c.persist) && Token(c.file) && Token(c.checkpointTime)
    ensures Plain(CacheBlock(c))
    ensures Steps(CacheBlock(c), st) == st.(cfg := st.cfg.(cache := c))
  {
    var a := "# 缓存设置";
    var b := Words(["cache-size", c.size]);
    var d := Words(["cache-persist", c.persist]);
    var e := Words(["cache-file", c.file]);
    var g := Words(["cache-checkpoint-time", c.checkpointTime]);
    assert CacheBlock(c) == [a, b, d, e, g, ""];
    CommentLine(st, a);
    CacheSizeWord();
    CacheSizeRead(st, "cache-size", c.size);
    var s1 := StepLine(st, b);
    CachePersistWord();
    CachePersistRead(s1, "cache-persist", c.persist);
    var s2 := StepLine(s1, d);
    CacheFileWord();
    CacheFileRead(s2, "cache-file", c.file);
    var s3 := StepLine(s2, e);
    CheckpointWord();
    CheckpointRead(s3, "cache-checkpoint-time", c.checkpointTime);
    var s4 := StepLine(s3, g);
    BlankLine(s4);
    Plain6(a, b, d, e, g, "");
    StepsFold(CacheBlock(c), st);
    Fold6(StepLine, a, b, d, e, g, "", st);
  }

  /** The prefetch line and the serve-expired switch. */
  lemma PrefetchPartRead(cfg: Config, st: Scan)
    requires Token(cfg.prefetch) && Token(cfg.expired.enabled)
    ensures Plain(Tuning(cfg)[..4])
    ensures Steps(Tuning(cfg)[..4], st)
      == st.(cfg := st.cfg.(prefetch := cfg.prefetch,
                            expired := st.cfg.expired.(enabled := cfg.expired.enabled)))
  {
    var a := "# 缓存预获取";
    var b := Words(["prefetch-domain", cfg.prefetch]);
    var c := "# 乐观缓存";
    var d := Words(["serve-expired", cfg.expired.enabled]);
    assert Tuning(cfg)[..4] == [a, b, c, d];
    CommentLine(st, a);
    PrefetchWord();
    PrefetchRead(st, "prefetch-domain", cfg.prefetch);
    var s1 := StepLine(st, b);
    CommentLine(s1, c);
    ServeExpiredWord();
    ServeExpiredRead(s1, "serve-expired", cfg.expired.enabled);
    Plain4(a, b, c, d);
    StepsFold(Tuning(cfg)[..4], st);
    Fold4(StepLine, a, b, c, d, st);
  }

  /** The three serve-expired timings. */
  lemma ExpiredPartRead(cfg: Config, st: Scan)
    requires Token(cfg.expired.ttl) && Token(cfg.expired.replyTtl) && Token(cfg.expired.prefetchTime)
    ensures Plain(Tuning(cfg)[4..7])
    ensures Steps(Tuning(cfg)[4..7], st)
      == st.(cfg := st.cfg.(expired := st.cfg.expired.(ttl := cfg.expired.ttl,
                                                       replyTtl := cfg.expired.replyTtl,
                                                       prefetchTime := cfg.expired.prefetchTime)))
  {
    var x := cfg.expired;
    var a := Words(["serve-expired-ttl", x.ttl]);
    var b := Words(["serve-expired-reply-ttl", x.replyTtl]);
    var c := Words(["serve-expired-prefetch-time", x.prefetchTime]);
    assert Tuning(cfg)[4..7] == [a, b, c];
    ExpiredTtlWord();
    ExpiredTtlRead(st, "serve-expired-ttl", x.ttl);
    var s1 := StepLine(st, a);
    ReplyTtlWord();
    ReplyTtlRead(s1, "serve-expired-reply-ttl", x.replyTtl);
    var s2 := StepLine(s1, b);
    PrefetchTimeWord();
    PrefetchTimeRead(s2, "serve-expired-prefetch-time", x.prefetchTime);
    Plain3(a, b, c);
    StepsFold(Tuning(cfg)[4..7], st);
    Fold3(StepLine, a, b, c, st);
  }

  /** The AAAA switch and the blank lines around it. */
  lemma AaaaPartRead(cfg: Config, st: Scan)
    requires Token(cfg.forceAaaaSoa)
    ensures Plain(Tuning(cfg)[7..])
    ensures Steps(Tuning(cfg)[7..], st) == st.(cfg := st.cfg.(forceAaaaSoa := cfg.forceAaaaSoa))
  {
    var b := "# 全局禁用 IPv6";
    var c := Words(["force-AAAA-SOA", cfg.forceAaaaSoa]);
    assert Tuning(cfg)[7..] == ["", b, c, ""];
    BlankLine(st);
    CommentLine(st, b);
    AaaaWord();
    AaaaRead(st, "force-AAAA-SOA", cfg.forceAaaaSoa);
    var s1 := StepLine(st, c);
    BlankLine(s1);
    Plain4("", b, c, "");
    StepsFold(Tuning(cfg)[7..], st);
    Fold4(StepLine, "", b, c, "", st);
  }

  lemma Assoc<T>(a: seq<T>, b: seq<T>, c: seq<T>)
    ensures (a + b) + c == a + (b + c)
  {
  }

  lemma PlainConcat(a: seq<string>, b: seq<string>)
    requires Plain(a) && Plain(b)
    ensures Plain(a + b)
  {
    forall i | 0 <= i < |a + b|
      ensures Closed((a + b)[i])
    {
      if i < |a| {
        assert (a + b)[i] == a[i];
      } else {
        assert (a + b)[i] == b[i - |a|];
      }
    }
  }

  /** A server entry the writer can write and the reader read back: a
      server type, and a group and addresses that are single words. */
  predicate WritableGroup(g: ServerGroup) {
    && "server" <= g.kind && Token(g.kind) && Token(g.group)
    && forall i :: 0 <= i < |g.addresses| ==> Token(g.addresses[i])
  }

  lemma OptionWords(group: string)
    requires Token(group)
    ensures forall i :: 0 <= i < 3 ==> Token(["-group", group, "-exclude-default-group"][i])
    ensures GroupOption(["-group", group, "-exclude-default-group"]) == group
  {
    var opts := ["-group", group, "-exclude-default-group"];
    assert Token(opts[0]) && Token(opts[2]);
  }

  /** The server line of a named group's address. */
  lemma NamedLineRead(kind: string, group: string, address: string, st: Scan)
    requires "server" <= kind && Token(kind) && Token(group) && Token(address)
    ensures !OpensSet(Words([kind, address, "-group", group, "-exclude-default-group"]))
    ensures StepLine(st, Words([kind, address, "-group", group, "-exclude-default-group"]))
      == st.(raw := st.raw + [Server(address, kind, group)])
  {
    var opts := ["-group", group, "-exclude-default-group"];
    assert [kind, address] + opts == [kind, address, "-group", group, "-exclude-default-group"];
    OptionWords(group);
    ServerLineRead(st, kind, address, opts);
  }

  /** A named group's address is read back under its group. */
  lemma NamedEntryRead(kind: string, group: string, address: string, st: Scan)
    requires "server" <= kind && Token(kind) && Token(group) && Token(address)
    ensures Plain(ServerEntry(kind, group, address, true))
    ensures Steps(ServerEntry(kind, group, address, true), st)
      == st.(raw := st.raw + [Server(address, kind, group)])
  {
    var c := "# 所属域名组：" + group;
    var l := Words([kind, address, "-group", group, "-exclude-default-group"]);
    assert ServerEntry(kind, group, address, true) == [c, l];
    NamedLineRead(kind, group, address, st);
    CommentLine(st, c);
    Plain2(c, l);
    StepsFold([c, l], st);
    Fold2(StepLine, c, l, st);
  }

  /** A common address is read back under the common group. */
  lemma CommonEntryRead(kind: string, address: string, st: Scan)
    requires "server" <= kind && Token(kind) && Token(address)
    ensures Plain(ServerEntry(kind, COMMON, address, false))
    ensures Steps(ServerEntry(kind, COMMON, address, false), st)
      == st.(raw := st.raw + [Server(address, kind, COMMON)])
  {
    var l := Words([kind, address]);
    assert [kind, address] + [] == [kind, address];
    assert ServerEntry(kind, COMMON, address, false) == [l];
    ServerLineRead(st, kind, address, []);
    assert Closed(l);
    assert Plain([l]);
    StepsFold([l], st);
    assert [l][1..] == [];
  }

  /** The lines of one entry's addresses give back one server per address. */
  lemma {:induction false} AddressLinesRead(kind: string, group: string, addresses: seq<string>,
                                            named: bool, st: Scan)
    requires "server" <= kind && Token(kind) && Token(group)
    requires forall i :: 0 <= i < |addresses| ==> Token(addresses[i])
    requires !named ==> group == COMMON
    ensures Plain(AddressLines(kind, group, addresses, named))
    ensures Steps(AddressLines(kind, group, addresses, named), st)
      == st.(raw := st.raw + Spread(kind, group, addresses))
    decreases |addresses|
  {
    if addresses == [] {
      assert st.raw + [] == st.raw;
    } else {
      var front := addresses[..|addresses| - 1];
      var a := addresses[|addresses| - 1];
      AddressLinesRead(kind, group, front, named, st);
      var s1 := st.(raw := st.raw + Spread(kind, group, front));
      if named {
        NamedEntryRead(kind, group, a, s1);
      } else {
        CommonEntryRead(kind, a, s1);
      }
      StepsAppend(AddressLines(kind, group, front, named), ServerEntry(kind, group, a, named), st);
      PlainConcat(AddressLines(kind, group, front, named), ServerEntry(kind, group, a, named));
      assert Spread(kind, group, addresses) == Spread(kind, group, front) + [Server(a, kind, group)];
      Assoc(st.raw, Spread(kind, group, front), [Server(a, kind, group)]);
    }
  }

  /** The lines of a list of entries give back their servers in order. */
  lemma {:induction false} ServerLinesRead(gs: seq<ServerGroup>, named: bool, st: Scan)
    requires forall i :: 0 <= i < |gs| ==> WritableGroup(gs[i])
    requires !named ==> forall i :: 0 <= i < |gs| ==> gs[i].group == COMMON
    ensures Plain(ServerLines(gs, named))
    ensures Steps(ServerLines(gs, named), st) == st.(raw := st.raw + Flat(gs))
    decreases |gs|
  {
    if gs == [] {
      assert st.raw + [] == st.raw;
    } else {
      var front := gs[..|gs| - 1];
      var x := gs[|gs| - 1];
      var a := ServerLines(front, named);
      var b := AddressLines(x.kind, x.group, x.addresses, named);
      assert ServerLines(gs, named) == a + b;
      var s1 := st.(raw := st.raw + Flat(front));
      assert Plain(a) && Steps(a, st) == s1 by {
        assert forall i :: 0 <= i < |front| ==> front[i] == gs[i];
        ServerLinesRead(front, named, st);
      }
      assert Plain(b) && Steps(b, s1) == st.(raw := s1.raw + Spread(x.kind, x.group, x.addresses)) by {
        assert WritableGroup(x) && (!named ==> x.group == COMMON);
        AddressLinesRead(x.kind, x.group, x.addresses, named, s1);
      }
      assert Plain(a + b) by {
        PlainConcat(a, b);
      }
      assert Steps(a + b, st) == Steps(b, s1) by {
        StepsAppend(a, b, st);
      }
      assert Flat(gs) == Flat(front) + Spread(x.kind, x.group, x.addresses);
      Assoc(st.raw, Flat(front), Spread(x.kind, x.group, x.addresses));
    }
  }

  /** A blank line or a comment: read past without effect. */
  predicate Quiet(line: string) {
    line == "" || (line != [] && line[0] == '#')
  }

  lemma QuietLine(line: string, st: Scan)
    requires Quiet(line)
    ensures !OpensSet(line) && StepLine(st, line) == st
  {
    if line == "" {
      BlankLine(st);
    } else {
      CommentLine(st, line);
    }
  }

  lemma Quiet1(a: string, st: Scan)
    requires Quiet(a)
    ensures Plain([a]) && Steps([a], st) == st
  {
    QuietLine(a, st);
    assert [a][1..] == [];
  }

  lemma Quiet2(a: string, b: string, st: Scan)
    requires Quiet(a) && Quiet(b)
    ensures Plain([a, b]) && Steps([a, b], st) == st
  {
    QuietLine(a, st);
    QuietLine(b, st);
    Plain2(a, b);
    StepsFold([a, b], st);
    Fold2(StepLine, a, b, st);
  }

  lemma SortedNamedWritable(gs: seq<ServerGroup>)
    requires forall i :: 0 <= i < |gs| ==> WritableGroup(gs[i])
    ensures forall i :: 0 <= i < |SortedNamed(gs)| ==> WritableGroup(SortedNamed(gs)[i])
  {
    var s := SortedNamed(gs);
    forall i | 0 <= i < |s|
      ensures WritableGroup(s[i])
    {
      assert s[i] in multiset(s);
      assert s[i] in multiset(Named(gs));
      var j :| 0 <= j < |Named(gs)| && Named(gs)[j] == s[i];
      assert Named(gs)[j] in gs;
    }
  }

  /** Both server blocks and their headings give back the named servers in
      the writer's order, then the common ones. */
  lemma ServerSectionRead(gs: seq<ServerGroup>, st: Scan)
    requires forall i :: 0 <= i < |gs| ==> WritableGroup(gs[i])
    ensures Plain(ServerSection(gs))
    ensures Steps(ServerSection(gs), st)
      == st.(raw := st.raw + (Flat(SortedNamed(gs)) + Flat(Common(gs))))
  {
    var p0 := [NAMED_HEADING];
    var p1 := ServerLines(SortedNamed(gs), true);
    var p2 := ["", COMMON_HEADING];
    var p3 := ServerLines(Common(gs), false);
    var p4 := ["", SETS_HEADING];
    assert ServerSection(gs) == p0 + p1 + p2 + p3 + p4;
    var n := Flat(SortedNamed(gs));
    var c := Flat(Common(gs));
    var s1 := st.(raw := st.raw + n);
    var s2 := s1.(raw := s1.raw + c);
    assert Plain(p0) && Steps(p0, st) == st by {
      Quiet1(NAMED_HEADING, st);
    }
    assert Plain(p1) && Steps(p1, st) == s1 by {
      SortedNamedWritable(gs);
      ServerLinesRead(SortedNamed(gs), true, st);
    }
    assert Plain(p2) && Steps(p2, s1) == s1 by {
      Quiet2("", COMMON_HEADING, s1);
    }
    assert Plain(p3) && Steps(p3, s1) == s2 by {
      ServerLinesRead(Common(gs), false, s1);
    }
    assert Plain(p4) && Steps(p4, s2) == s2 by {
      Quiet2("", SETS_HEADING, s2);
    }
    assert Plain(p0 + p1) && Steps(p0 + p1, st) == s1 by {
      PlainConcat(p0, p1);
      StepsAppend(p0, p1, st);
    }
    assert Plain(p0 + p1 + p2) && Steps(p0 + p1 + p2, st) == s1 by {
      PlainConcat(p0 + p1, p2);
      StepsAppend(p0 + p1, p2, st);
    }
    assert Plain(p0 + p1 + p2 + p3) && Steps(p0 + p1 + p2 + p3, st) == s2 by {
      PlainConcat(p0 + p1 + p2, p3);
      StepsAppend(p0 + p1 + p2, p3, st);
    }
    assert Plain(p0 + p1 + p2 + p3 + p4) && Steps(p0 + p1 + p2 + p3 + p4, st) == s2 by {
      PlainConcat(p0 + p1 + p2 + p3, p4);
      StepsAppend(p0 + p1 + p2 + p3, p4, st);
    }
    Assoc(st.raw, n, c);
  }

  /** The `domain-rules` options the parser acts on. */
  predicate Flag(w: string) {
    w == "-speed-check-mode" || w == "-response-mode" || w == "-address"
  }

  /** Words that are not options leave a set as it is. */
  lemma {:induction false} NoFlags(ds: DomainSet, toks: seq<string>)
    requires forall i :: 0 <= i < |toks| ==> !Flag(toks[i])
    ensures ApplyRule(ds, toks) == ds
    decreases |toks|
  {
    if toks != [] {
      assert !Flag(toks[0]);
      NoFlags(ds, toks[1..]);
    }
  }

  /** A rule line can be read in pieces, cut after a word that is not an
      option. */
  lemma {:induction false} ApplyRuleAppend(ds: DomainSet, a: seq<string>, b: seq<string>)
    requires a == [] || !Flag(a[|a| - 1])
    ensures ApplyRule(ds, a + b) == ApplyRule(ApplyRule(ds, a), b)
    decreases |a|
  {
    if a == [] {
      assert a + b == b;
    } else {
      var ab := a + b;
      assert ab[0] == a[0] && ab[1..] == a[1..] + b;
      if |a| > 1 {
        assert ab[1] == a[1];
      }
      var next :=
        if a[0] == "-speed-check-mode" && |a| > 1 then ds.(speedCheckMode := a[1])
        else if a[0] == "-response-mode" && |a| > 1 then ds.(responseMode := a[1])
        else if a[0] == "-address" && |a| > 1 && a[1] == "-6" then ds.(addressIpv6 := true)
        else ds;
      assert ApplyRule(ds, a) == ApplyRule(next, a[1..]);
      assert ApplyRule(ds, ab) == ApplyRule(next, ab[1..]);
      ApplyRuleAppend(next, a[1..], b);
    }
  }

  lemma OptionPair(ds: DomainSet, flag: string, v: string)
    requires Flag(flag) && !Flag(v)
    ensures ApplyRule(ds, [flag, v]) ==
      if flag == "-speed-check-mode" then ds.(speedCheckMode := v)
      else if flag == "-response-mode" then ds.(responseMode := v)
      else if v == "-6" then ds.(addressIpv6 := true)
      else ds
  {
    var next :=
      if flag == "-speed-check-mode" then ds.(speedCheckMode := v)
      else if flag == "-response-mode" then ds.(responseMode := v)
      else if v == "-6" then ds.(addressIpv6 := true)
      else ds;
    assert [flag, v][1..] == [v];
    assert ApplyRule(ds, [flag, v]) == ApplyRule(next, [v]);
    NoFlags(next, [v]);
  }

  /** A domain set the writer can write and the reader read back: names,
      path and the values on the rule line are single words that are not
      options, and a source URL has no outer whitespace and no `# Source =`
      inside it. */
  predicate WritableSet(ds: DomainSet) {
    && Token(ds.name) && Token(ds.file) && Token(ds.group) && !Flag(ds.group)
    && (ds.speedCheckMode != "none" ==> Token(ds.speedCheckMode) && !Flag(ds.speedCheckMode))
    && (ds.responseMode != "none" ==> Token(ds.responseMode) && !Flag(ds.responseMode))
    && (ds.sourceUrl != "" ==> Trimmed(ds.sourceUrl) && !Contains(ds.sourceUrl, SOURCE_TAG))
  }

  /** The first six words of a rule line: the set, no cache, and the group's
      nameserver. */
  function RuleHead(ds: DomainSet): seq<string> {
    ["domain-rules", "/domain-set:" + ds.name + "/", "-c", "none", "-nameserver", ds.group]
  }

  function SpeedWords(ds: DomainSet): seq<string> {
    if ds.speedCheckMode != "none" then ["-speed-check-mode", ds.speedCheckMode] else []
  }

  function ResponseWords(ds: DomainSet): seq<string> {
    if ds.responseMode != "none" then ["-response-mode", ds.responseMode] else []
  }

  function Ipv6Words(ds: DomainSet): seq<string> {
    if ds.addressIpv6 then ["-address", "-6"] else []
  }

  lemma RuleParts(ds: DomainSet)
    ensures RuleWords(ds) == RuleHead(ds) + SpeedWords(ds) + ResponseWords(ds) + Ipv6Words(ds)
  {
  }

  lemma SetTagWord(name: string)
    requires Token(name)
    ensures Token("/domain-set:" + name + "/") && !Flag("/domain-set:" + name + "/")
  {
    var w := "/domain-set:" + name + "/";
    forall i | 0 <= i < |w|
      ensures !IsSpace(w[i])
    {
      if 12 <= i < 12 + |name| {
        assert w[i] == name[i - 12];
      }
    }
    assert w[0] == '/';
  }

  lemma RuleLiterals()
    ensures Token("domain-rules") && Token("-c") && Token("none") && Token("-nameserver")
    ensures !Flag("domain-rules") && !Flag("-c") && !Flag("none") && !Flag("-nameserver")
  {
  }

  lemma RuleHeadQuiet(ds: DomainSet)
    requires WritableSet(ds)
    ensures forall i :: 0 <= i < 6 ==> Token(RuleHead(ds)[i]) && !Flag(RuleHead(ds)[i])
  {
    SetTagWord(ds.name);
    RuleLiterals();
  }

  /** Every word of a rule line is a single word. */
  lemma RuleTokens(ds: DomainSet)
    requires WritableSet(ds)
    ensures forall i :: 0 <= i < |RuleWords(ds)| ==> Token(RuleWords(ds)[i])
  {
    RuleParts(ds);
    RuleHeadQuiet(ds);
    var h := RuleHead(ds);
    var s := SpeedWords(ds);
    var r := ResponseWords(ds);
    var v := Ipv6Words(ds);
    assert forall i :: 0 <= i < |s| ==> Token(s[i]);
    assert forall i :: 0 <= i < |r| ==> Token(r[i]);
    assert forall i :: 0 <= i < |v| ==> Token(v[i]);
    TokensJoin(h, s);
    TokensJoin(h + s, r);
    TokensJoin(h + s + r, v);
  }

  lemma TokensJoin(a: seq<string>, b: seq<string>)
    requires forall i :: 0 <= i < |a| ==> Token(a[i])
    requires forall i :: 0 <= i < |b| ==> Token(b[i])
    ensures forall i :: 0 <= i < |a + b| ==> Token((a + b)[i])
  {
    forall i | 0 <= i < |a + b|
      ensures Token((a + b)[i])
    {
      if i >= |a| {
        assert (a + b)[i] == b[i - |a|];
      }
    }
  }

  /** What a set's rule line says once read: each mode that was written, and
      IPv6 answers when asked for. */
  function RuleRead(base: DomainSet, ds: DomainSet): DomainSet {
    base.(speedCheckMode := if ds.speedCheckMode != "none" then ds.speedCheckMode else base.speedCheckMode,
          responseMode := if ds.responseMode != "none" then ds.responseMode else base.responseMode,
          addressIpv6 := base.addressIpv6 || ds.addressIpv6)
  }

  lemma RuleApplied(base: DomainSet, ds: DomainSet)
    requires WritableSet(ds)
    ensures ApplyRule(base, RuleWords(ds)) == RuleRead(base, ds)
  {
    RuleParts(ds);
    RuleHeadQuiet(ds);
    var h := RuleHead(ds);
    var s := SpeedWords(ds);
    var r := ResponseWords(ds);
    var v := Ipv6Words(ds);
    var b1 := ApplyRule(base, h);
    var b2 := ApplyRule(b1, s);
    var b3 := ApplyRule(b2, r);
    assert b1 == base by {
      NoFlags(base, h);
    }
    assert b2 == base.(speedCheckMode := if ds.speedCheckMode != "none" then ds.speedCheckMode else base.speedCheckMode) by {
      if s != [] {
        OptionPair(b1, "-speed-check-mode", ds.speedCheckMode);
      }
    }
    assert b3 == b2.(responseMode := if ds.responseMode != "none" then ds.responseMode else base.responseMode) by {
      if r != [] {
        OptionPair(b2, "-response-mode", ds.responseMode);
      }
    }
    assert ApplyRule(b3, v) == b3.(addressIpv6 := base.addressIpv6 || ds.addressIpv6) by {
      if v != [] {
        OptionPair(b3, "-address", "-6");
      }
    }
    assert ApplyRule(base, h + s) == b2 by {
      ApplyRuleAppend(base, h, s);
    }
    assert ApplyRule(base, h + s + r) == b3 by {
      assert h + s != [] && !Flag((h + s)[|h + s| - 1]);
      ApplyRuleAppend(base, h + s, r);
    }
    assert h + s + r != [] && !Flag((h + s + r)[|h + s + r| - 1]);
    ApplyRuleAppend(base, h + s + r, v);
  }

  /** A blank line or a comment does not continue a set's rules. */
  lemma NotRule(line: string)
    requires Quiet(line)
    ensures !StartsWith(line, "domain-rules")
  {
    if line == "" {
      assert Trimmed("");
      StripTrimmed("");
    } else {
      HashLineIsComment(line);
    }
  }

  /** The rule line is taken as the set's only rule line. */
  lemma RuleLineRead(base: DomainSet, ds: DomainSet, more: seq<string>)
    requires WritableSet(ds) && (more == [] || Quiet(more[0]))
    ensures ReadRules(base, [Words(RuleWords(ds))] + more) == (RuleRead(base, ds), 1)
  {
    var ws := RuleWords(ds);
    var l := Words(ws);
    var rest := [l] + more;
    RuleLineParsed(ds);
    assert rest[0] == l && rest[1..] == more;
    RuleApplied(base, ds);
    if more != [] {
      NotRule(more[0]);
    }
  }

  /** A rule line splits back into its words and starts with its keyword. */
  lemma RuleLineParsed(ds: DomainSet)
    requires WritableSet(ds)
    ensures var l := Words(RuleWords(ds));
      Split(Strip(l)) == RuleWords(ds) && StartsWith(l, "domain-rules")
  {
    RuleTokens(ds);
    ParseWords(RuleWords(ds));
    WordsStart(RuleWords(ds));
  }

  lemma SourceStripped(url: string)
    requires url != "" && Trimmed(url)
    ensures Strip("# Source = " + url) == "# Source = " + url
  {
    var src := "# Source = " + url;
    assert Trimmed(src) by {
      assert src[|src| - 1] == url[|url| - 1];
    }
    StripTrimmed(src);
  }

  lemma SourceRemoved(url: string)
    requires !Contains(url, SOURCE_TAG)
    ensures SOURCE_TAG <= "# Source = " + url
    ensures RemoveAll("# Source = " + url, SOURCE_TAG) == " " + url
  {
    assert "# Source = " + url == SOURCE_TAG + (" " + url);
    assert !(SOURCE_TAG <= [' '] + url) by {
      assert ([' '] + url)[0] == ' ';
    }
    ContainsCons(' ', url, SOURCE_TAG);
    assert [' '] + url == " " + url;
    RemoveLeading(SOURCE_TAG, " " + url);
  }

  /** A `# Source =` line gives back the URL written into it. */
  lemma SourceLineRead(url: string)
    requires url != "" && Trimmed(url) && !Contains(url, SOURCE_TAG)
    ensures Quiet("# Source = " + url)
    ensures StartsWith("# Source = " + url, SOURCE_TAG)
    ensures SourceUrl("# Source = " + url) == url
  {
    SourceStripped(url);
    SourceRemoved(url);
    StripLeadingSpace(url);
  }

  lemma HeaderLiterals()
    ensures Token("domain-set") && Token("-name") && Token("-file")
  {
  }

  /** The `domain-set -name N -file F` line opens a set. */
  lemma SetHeaderRead(ds: DomainSet)
    requires Token(ds.name) && Token(ds.file)
    ensures OpensSet(Words(["domain-set", "-name", ds.name, "-file", ds.file]))
    ensures Split(Strip(Words(["domain-set", "-name", ds.name, "-file", ds.file])))
      == ["domain-set", "-name", ds.name, "-file", ds.file]
  {
    var ws := ["domain-set", "-name", ds.name, "-file", ds.file];
    HeaderLiterals();
    ParseWords(ws);
    WordsEnds(ws);
  }

  /** The rule line is not mistaken for a `# Source =` line. */
  lemma RuleNotSource(ds: DomainSet)
    requires WritableSet(ds)
    ensures !StartsWith(Words(RuleWords(ds)), SOURCE_TAG)
  {
    var ws := RuleWords(ds);
    RuleTokens(ds);
    ParseWords(ws);
    WordsEnds(ws);
  }

  /** The set a written block describes before its rule line is applied:
      what the header and the `# Source =` line carry, and the defaults. */
  function SetBase(ds: DomainSet): DomainSet {
    var friendly := BeforeFirst(ds.name, '-');
    DomainSet(ds.name, friendly, ds.file, friendly, ds.sourceUrl, "", 0, "ping", "fastest", false)
  }

  /** The set a written block reads back as. */
  function ReadBack(ds: DomainSet, stat: string -> FileStat): DomainSet {
    WithStat(RuleRead(SetBase(ds), ds), stat(ds.file))
  }

  /** The lines of a written block after its header line. */
  function SetBody(ds: DomainSet): seq<string> {
    (if ds.sourceUrl != "" then ["# Source = " + ds.sourceUrl] else []) + [Words(RuleWords(ds))]
  }

  function HeaderWords(ds: DomainSet): seq<string> {
    ["domain-set", "-name", ds.name, "-file", ds.file]
  }

  /** Reading the lines after a written header takes exactly the block's
      own lines and gives back the set. */
  lemma SetBodyRead(ds: DomainSet, more: seq<string>, stat: string -> FileStat)
    requires WritableSet(ds) && (more == [] || Quiet(more[0]))
    ensures SetHeader(HeaderWords(ds))
    ensures ReadDomainSet(HeaderWords(ds), SetBody(ds) + more, stat)
      == (ReadBack(ds, stat), |SetBody(ds)|)
  {
    var parts := HeaderWords(ds);
    var l := Words(RuleWords(ds));
    var rest := SetBody(ds) + more;
    var base := HeaderSet(parts);
    if ds.sourceUrl == "" {
      assert rest == [l] + more;
      assert !HasSource(rest) by {
        RuleNotSource(ds);
      }
      assert base == SetBase(ds);
      assert rest[0..] == rest;
      RuleLineRead(base, ds, more);
    } else {
      var src := "# Source = " + ds.sourceUrl;
      assert rest == [src] + ([l] + more);
      assert HasSource(rest) && SourceUrl(rest[0]) == ds.sourceUrl by {
        SourceLineRead(ds.sourceUrl);
      }
      assert base.(sourceUrl := ds.sourceUrl) == SetBase(ds);
      assert rest[1..] == [l] + more;
      RuleLineRead(SetBase(ds), ds, more);
    }
  }

  /** The scan after a set has been read. */
  function AddSet(st: Scan, d: DomainSet): Scan {
    st.(cfg := st.cfg.(domainSets := st.cfg.domainSets + [d]))
  }

  /** A quiet line is passed over by the parse loop. */
  lemma QuietSkipped(c: string, rest: seq<string>, st: Scan, stat: string -> FileStat)
    requires Quiet(c)
    ensures ReadLines([c] + rest, st, stat) == ReadLines(rest, st, stat)
  {
    QuietLine(c, st);
    assert ([c] + rest)[0] == c && ([c] + rest)[1..] == rest;
  }

  /** A set header hands the lines after it to the set reader, and the
      parse loop resumes after the lines that reader took. */
  lemma HeaderTaken(h: string, rest: seq<string>, st: Scan, stat: string -> FileStat)
    requires OpensSet(h)
    ensures var (d, n) := ReadDomainSet(Split(Strip(h)), rest, stat);
      ReadLines([h] + rest, st, stat) == ReadLines(rest[n..], AddSet(st, d), stat)
  {
    assert ([h] + rest)[0] == h && ([h] + rest)[1..] == rest;
  }

  lemma SetLinesShape(ds: DomainSet)
    ensures SetLines(ds)[..2] == [SetLines(ds)[0], Words(HeaderWords(ds))]
    ensures Quiet(SetLines(ds)[0])
    ensures SetLines(ds) == SetLines(ds)[..2] + SetBody(ds)
  {
  }

  lemma Regroup(c: string, h: string, body: seq<string>, more: seq<string>)
    ensures [c, h] + body + more == [c] + ([h] + (body + more))
  {
  }

  /** A comment, a set header and the lines its reader takes: the set is
      added and the parse resumes after them. */
  lemma BlockRead(c: string, h: string, body: seq<string>, more: seq<string>, d: DomainSet,
                  st: Scan, stat: string -> FileStat)
    requires Quiet(c) && OpensSet(h)
    requires ReadDomainSet(Split(Strip(h)), body + more, stat) == (d, |body|)
    ensures ReadLines([c] + ([h] + (body + more)), st, stat) == ReadLines(more, AddSet(st, d), stat)
  {
    var rest := body + more;
    assert rest[|body|..] == more;
    HeaderTaken(h, rest, st, stat);
    QuietSkipped(c, [h] + rest, st, stat);
  }

  /** A written block reads back as its set and hands the parser the line
      after it. */
  lemma SetBlockRead(ds: DomainSet, more: seq<string>, st: Scan, stat: string -> FileStat)
    requires WritableSet(ds) && (more == [] || Quiet(more[0]))
    ensures ReadLines(SetLines(ds) + more, st, stat)
      == ReadLines(more, AddSet(st, ReadBack(ds, stat)), stat)
  {
    var c := SetLines(ds)[0];
    var h := Words(HeaderWords(ds));
    var body := SetBody(ds);
    SetLinesShape(ds);
    SetHeaderRead(ds);
    SetBodyRead(ds, more, stat);
    assert SetLines(ds) == [c, h] + body;
    Regroup(c, h, body, more);
    BlockRead(c, h, body, more, ReadBack(ds, stat), st, stat);
  }

  /** The sets a written section reads back as, in order. */
  function ReadBacks(dss: seq<DomainSet>, stat: string -> FileStat): (r: seq<DomainSet>)
    ensures |r| == |dss|
  {
    if dss == [] then [] else [ReadBack(dss[0], stat)] + ReadBacks(dss[1..], stat)
  }

  /** What survives of a written set: its name, file, source URL and IPv6
      switch, and each mode that is not `none`; the friendly name and group
      come back as the name up to its first '-', a `none` mode comes back as
      the default, and the statistics come from the file system. */
  lemma ReadBackFields(ds: DomainSet, stat: string -> FileStat)
    ensures var r := ReadBack(ds, stat);
      && r.name == ds.name && r.file == ds.file && r.sourceUrl == ds.sourceUrl
      && r.addressIpv6 == ds.addressIpv6
      && r.friendlyName == BeforeFirst(ds.name, '-') && r.group == BeforeFirst(ds.name, '-')
      && r.speedCheckMode == (if ds.speedCheckMode != "none" then ds.speedCheckMode else "ping")
      && r.responseMode == (if ds.responseMode != "none" then ds.responseMode else "fastest")
      && (stat(ds.file).Found? ==>
            r.domainCount == |Domains(stat(ds.file).lines)| && r.lastUpdated == stat(ds.file).modified)
      && (!stat(ds.file).Found? ==> r.domainCount == 0)
  {
  }

  lemma SectionStartsQuiet(dss: seq<DomainSet>)
    ensures SetSection(dss) == [] || Quiet(SetSection(dss)[0])
  {
    if dss != [] {
      SetLinesShape(dss[0]);
    }
  }

  /** A written domain-set section reads back as the sets, in order. */
  lemma {:induction false} SetSectionRead(dss: seq<DomainSet>, st: Scan, stat: string -> FileStat)
    requires forall i :: 0 <= i < |dss| ==> WritableSet(dss[i])
    ensures ReadLines(SetSection(dss), st, stat)
      == st.(cfg := st.cfg.(domainSets := st.cfg.domainSets + ReadBacks(dss, stat)))
    decreases |dss|
  {
    if dss == [] {
      assert st.cfg.domainSets + [] == st.cfg.domainSets;
    } else {
      var more := SetSection(dss[1..]);
      var d := ReadBack(dss[0], stat);
      SectionStartsQuiet(dss[1..]);
      SetBlockRead(dss[0], more, st, stat);
      SetSectionRead(dss[1..], AddSet(st, d), stat);
      Assoc(st.cfg.domainSets, [d], ReadBacks(dss[1..], stat));
    }
  }

  /** The tuning lines set prefetching, serving expired answers and the
      AAAA switch, and nothing else. */
  lemma TuningRead(cfg: Config, st: Scan)
    requires Token(cfg.prefetch) && Token(cfg.forceAaaaSoa)
    requires Token(cfg.expired.enabled) && Token(cfg.expired.ttl)
    requires Token(cfg.expired.replyTtl) && Token(cfg.expired.prefetchTime)
    ensures Plain(Tuning(cfg))
    ensures Steps(Tuning(cfg), st)
      == st.(cfg := st.cfg.(prefetch := cfg.prefetch, expired := cfg.expired,
                            forceAaaaSoa := cfg.forceAaaaSoa))
  {
    var a := Tuning(cfg)[..4];
    var b := Tuning(cfg)[4..7];
    var c := Tuning(cfg)[7..];
    assert Tuning(cfg) == (a + b) + c;
    PrefetchPartRead(cfg, st);
    var s1 := Steps(a, st);
    ExpiredPartRead(cfg, s1);
    var s2 := Steps(b, s1);
    AaaaPartRead(cfg, s2);
    StepsAppend(a + b, c, st);
    StepsAppend(a, b, st);
    PlainConcat(a, b);
    PlainConcat(a + b, c);
  }

  /** The settings the written file can carry back: ports without a colon
      or space, and the other values single words; a rule mode or group may
      not be one of the rule flags, and a source URL may not hold the source
      tag. */
  predicate Writable(cfg: Config) {
    && PortWord(cfg.bind.port) && PortWord(cfg.bind.tcpPort)
    && (cfg.cache.enabled == "yes" ==>
          Token(cfg.cache.size) && Token(cfg.cache.persist) && Token(cfg.cache.file)
          && Token(cfg.cache.checkpointTime))
    && Token(cfg.prefetch) && Token(cfg.forceAaaaSoa)
    && Token(cfg.expired.enabled) && Token(cfg.expired.ttl)
    && Token(cfg.expired.replyTtl) && Token(cfg.expired.prefetchTime)
    && (forall i :: 0 <= i < |cfg.servers| ==> WritableGroup(cfg.servers[i]))
    && (forall i :: 0 <= i < |cfg.domainSets| ==> WritableSet(cfg.domainSets[i]))
  }

  /** Everything before the domain-set section. */
  function Preamble(cfg: Config): seq<string> {
    Header(cfg) + CacheBlock(cfg.cache) + Tuning(cfg) + ServerSection(cfg.servers)
  }

  /** The cache a scan holds after the cache block: the written one when it
      was enabled, otherwise the one it held before. */
  function CacheAfter(before: Cache, written: Cache): Cache {
    if written.enabled == "yes" then written else before
  }

  /** The settings part of a scan after the preamble: the cache only when
      it was written. */
  function Settled(base: Config, cfg: Config): Config {
    base.(bind := cfg.bind,
          cache := CacheAfter(base.cache, cfg.cache),
          prefetch := cfg.prefetch, expired := cfg.expired, forceAaaaSoa := cfg.forceAaaaSoa)
  }

  lemma HeadRead(cfg: Config, st: Scan)
    requires Writable(cfg)
    ensures Plain(Header(cfg) + CacheBlock(cfg.cache))
    ensures Steps(Header(cfg) + CacheBlock(cfg.cache), st)
      == st.(cfg := st.cfg.(bind := cfg.bind, cache := CacheAfter(st.cfg.cache, cfg.cache)))
  {
    HeaderRead(cfg, st);
    var s1 := Steps(Header(cfg), st);
    if cfg.cache.enabled == "yes" {
      CacheBlockRead(cfg.cache, s1);
    } else {
      assert CacheBlock(cfg.cache) == [];
    }
    StepsAppend(Header(cfg), CacheBlock(cfg.cache), st);
    PlainConcat(Header(cfg), CacheBlock(cfg.cache));
  }

  /** The preamble sets every global setting and lists every server line. */
  lemma PreambleRead(cfg: Config, st: Scan)
    requires Writable(cfg)
    ensures Plain(Preamble(cfg))
    ensures Steps(Preamble(cfg), st)
      == Scan(Settled(st.cfg, cfg), st.raw + (Flat(SortedNamed(cfg.servers)) + Flat(Common(cfg.servers))))
  {
    var a := Header(cfg) + CacheBlock(cfg.cache);
    var b := Tuning(cfg);
    var c := ServerSection(cfg.servers);
    HeadRead(cfg, st);
    var s1 := Steps(a, st);
    TuningRead(cfg, s1);
    var s2 := Steps(b, s1);
    ServerSectionRead(cfg.servers, s2);
    StepsAppend(a + b, c, st);
    StepsAppend(a, b, st);
    PlainConcat(a, b);
    PlainConcat(a + b, c);
  }

  /** The server lines a written file lists, in file order. */
  function Written(gs: seq<ServerGroup>): seq<Server> {
    Flat(SortedNamed(gs)) + Flat(Common(gs))
  }

  /** The parse loop over a written file. */
  lemma WrittenScan(cfg: Config, st: Scan, stat: string -> FileStat)
    requires Writable(cfg)
    ensures ReadLines(WriteConfig(cfg), st, stat)
      == Scan(Settled(st.cfg, cfg).(domainSets := st.cfg.domainSets + ReadBacks(cfg.domainSets, stat)),
              st.raw + Written(cfg.servers))
  {
    var s1 := Scan(Settled(st.cfg, cfg), st.raw + Written(cfg.servers));
    assert WriteConfig(cfg) == Preamble(cfg) + SetSection(cfg.domainSets);
    PreambleRead(cfg, st);
    ReadPlain(Preamble(cfg), SetSection(cfg.domainSets), st, stat);
    SetSectionRead(cfg.domainSets, s1, stat);
  }

  /** Reading a written file, as one record. */
  lemma ReadWritten(cfg: Config, stat: string -> FileStat)
    requires Writable(cfg)
    ensures ReadConfig(Some(WriteConfig(cfg)), stat)
      == Settled(DEFAULTS, cfg).(domainSets := ReadBacks(cfg.domainSets, stat),
                                 servers := Merge(Written(cfg.servers)))
  {
    WrittenScan(cfg, Scan(DEFAULTS, []), stat);
    ReadFrom(WriteConfig(cfg), stat, cfg, ReadBacks(cfg.domainSets, stat), Written(cfg.servers));
  }

  /** A file whose parse loop, started from the defaults, settles the
      globals of `cfg`, gathers the domain sets `sets` and the server lines
      `raw` reads as that record with the server lines merged. */
  lemma ReadFrom(lines: seq<string>, stat: string -> FileStat, cfg: Config, sets: seq<DomainSet>, raw: seq<Server>)
    requires ReadLines(lines, Scan(DEFAULTS, []), stat)
      == Scan(Settled(DEFAULTS, cfg).(domainSets := DEFAULTS.domainSets + sets), [] + raw)
    ensures ReadConfig(Some(lines), stat) == Settled(DEFAULTS, cfg).(domainSets := sets, servers := Merge(raw))
  {
    assert [] + raw == raw;
    assert DEFAULTS.domainSets + sets == sets;
  }

  /** Writing a settings record and reading the file back keeps every global
      setting (the cache only when enabled; a disabled cache reads back as the
      default one), files every server address under the same group and type
      in the same order, and gives each domain set back as ReadBack describes. */
  lemma RoundTrip(cfg: Config, stat: string -> FileStat)
    requires Writable(cfg)
    ensures var r := ReadConfig(Some(WriteConfig(cfg)), stat);
      && r.bind == cfg.bind
      && r.cache == (if cfg.cache.enabled == "yes" then cfg.cache else DEFAULT_CACHE)
      && r.prefetch == cfg.prefetch && r.expired == cfg.expired
      && r.forceAaaaSoa == cfg.forceAaaaSoa
      && (forall g, t :: AddressesFor(r.servers, g, t) == AddressesFor(cfg.servers, g, t))
      && r.domainSets == ReadBacks(cfg.domainSets, stat)
  {
    ReadWritten(cfg, stat);
    forall g, t
      ensures AddressesFor(Merge(Written(cfg.servers)), g, t) == AddressesFor(cfg.servers, g, t)
    {
      MergeWritten(cfg.servers, g, t);
    }
  }
}
