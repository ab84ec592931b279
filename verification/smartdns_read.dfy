/** `read_config`: the settings, upstream servers and domain sets a
    `smartdns.conf` file describes. The file arrives as its lines; the file
    system's answer about each domain list file is a parameter. */
module SmartDnsRead {
  import opened Wrappers
  import opened Text
  import opened SmartDnsConfig

  /** What the file system says about a domain list file: absent, present
      but unreadable, or present with its lines and its modification time
      already formatted for display. */
  datatype FileStat = Missing | Unreadable | Found(lines: seq<string>, modified: string)

  /** The parser's state: the settings so far, and the server lines met,
      which are merged once the whole file has been read. */
  datatype Scan = Scan(cfg: Config, raw: seq<Server>)

  const SOURCE_TAG: string := "# Source ="

  /** The value after a keyword, or the keyword's default when it stands alone. */
  function Arg(parts: seq<string>, default: string): (r: string)
    ensures |parts| > 1 ==> r == parts[1]
    ensures |parts| <= 1 ==> r == default
  {
    if |parts| > 1 then parts[1] else default
  }

  /** The word after the first `-group` that has one, or the common group. */
  function GroupOption(opts: seq<string>): (g: string)
    ensures g == COMMON || g in opts
  {
    if |opts| < 2 then COMMON
    else if opts[0] == "-group" then opts[1]
    else GroupOption(opts[1..])
  }

  /** `-group G` names the group; with no `-group` the server is common. */
  lemma {:induction false} GroupOptionFinds(before: seq<string>, g: string, after: seq<string>)
    requires "-group" !in before
    ensures GroupOption(before + ["-group", g] + after) == g
    ensures GroupOption(before) == COMMON
  {
    if before != [] {
      assert (before + ["-group", g] + after)[1..] == before[1..] + ["-group", g] + after;
      GroupOptionFinds(before[1..], g, after);
    }
  }

  /** The keywords the parser recognises. */
  datatype Keyword =
    | BindUdp | BindTcp | CacheSize | CachePersist | CacheFile | CacheCheckpoint
    | Prefetch | ServeExpired | ExpiredTtl | ExpiredReplyTtl | ExpiredPrefetch | ForceAaaaSoa
    | ServerLine | Unknown

  /** Which keyword a line's first word is, tried in the parser's order;
      every type of upstream server (`server`, `server-tls`,
      `server-https`, ...) is a server line. */
  function KeywordOf(w: string): Keyword {
    if w == "bind" then BindUdp
    else if w == "bind-tcp" then BindTcp
    else if w == "cache-size" then CacheSize
    else if w == "cache-persist" then CachePersist
    else if w == "cache-file" then CacheFile
    else if w == "cache-checkpoint-time" then CacheCheckpoint
    else if w == "prefetch-domain" then Prefetch
    else if w == "serve-expired" then ServeExpired
    else if w == "serve-expired-ttl" then ExpiredTtl
    else if w == "serve-expired-reply-ttl" then ExpiredReplyTtl
    else if w == "serve-expired-prefetch-time" then ExpiredPrefetch
    else if w == "force-AAAA-SOA" then ForceAaaaSoa
    else if "server" <= w then ServerLine
    else Unknown
  }

  /** `w` is a single word the parser classifies as `k`, and a line that
      starts with it is neither a comment nor a domain-set header. */
  predicate KeywordWord(w: string, k: Keyword) {
    Token(w) && w[0] != '#' && w != "domain-set" && KeywordOf(w) == k
  }

  // Each keyword the writer uses reads back as itself.

  lemma BindWord()
    ensures KeywordWord("bind", BindUdp)
  {
  }

  lemma BindTcpWord()
    ensures KeywordWord("bind-tcp", BindTcp)
  {
  }

  lemma CacheSizeWord()
    ensures KeywordWord("cache-size", CacheSize)
  {
  }

  lemma CachePersistWord()
    ensures KeywordWord("cache-persist", CachePersist)
  {
  }

  lemma CacheFileWord()
    ensures KeywordWord("cache-file", CacheFile)
  {
  }

  lemma CheckpointWord()
    ensures KeywordWord("cache-checkpoint-time", CacheCheckpoint)
  {
  }

  lemma PrefetchWord()
    ensures KeywordWord("prefetch-domain", Prefetch)
  {
  }

  lemma ServeExpiredWord()
    ensures KeywordWord("serve-expired", ServeExpired)
  {
  }

  lemma ExpiredTtlWord()
    ensures KeywordWord("serve-expired-ttl", ExpiredTtl)
  {
  }

  lemma ReplyTtlWord()
    ensures KeywordWord("serve-expired-reply-ttl", ExpiredReplyTtl)
  {
  }

  lemma PrefetchTimeWord()
    ensures KeywordWord("serve-expired-prefetch-time", ExpiredPrefetch)
  {
  }

  lemma AaaaWord()
    ensures KeywordWord("force-AAAA-SOA", ForceAaaaSoa)
  {
  }

  /** Every word that starts with `server` names an upstream server. */
  lemma ServerKeyword(w: string)
    requires "server" <= w
    ensures KeywordOf(w) == ServerLine
  {
    assert w[0] == 's' && w[5] == 'r';
  }

  /** The effect of one keyword line other than a domain-set header. */
  function ApplySetting(st: Scan, parts: seq<string>): (r: Scan)
    requires parts != []
    ensures KeywordOf(parts[0]) == ServerLine ==> r.cfg == st.cfg
    ensures KeywordOf(parts[0]) != ServerLine ==> r.raw == st.raw
    ensures r.cfg.domainSets == st.cfg.domainSets
  {
    var c := st.cfg;
    match KeywordOf(parts[0])
    case BindUdp =>
      st.(cfg := c.(bind := c.bind.(port := PortArg(parts))))
    case BindTcp =>
      st.(cfg := c.(bind := c.bind.(tcpPort := PortArg(parts))))
    case CacheSize =>
      st.(cfg := c.(cache := c.cache.(size := Arg(parts, "32768"), enabled := "yes")))
    case CachePersist =>
      st.(cfg := c.(cache := c.cache.(persist := Arg(parts, "yes"))))
    case CacheFile =>
      st.(cfg := c.(cache := c.cache.(file := Arg(parts, "/etc/smartdns/cache.db"))))
    case CacheCheckpoint =>
      st.(cfg := c.(cache := c.cache.(checkpointTime := Arg(parts, "600"))))
    case Prefetch =>
      st.(cfg := c.(prefetch := Arg(parts, "yes")))
    case ServeExpired =>
      st.(cfg := c.(expired := c.expired.(enabled := Arg(parts, "yes"))))
    case ExpiredTtl =>
      st.(cfg := c.(expired := c.expired.(ttl := Arg(parts, "600"))))
    case ExpiredReplyTtl =>
      st.(cfg := c.(expired := c.expired.(replyTtl := Arg(parts, "1"))))
    case ExpiredPrefetch =>
      st.(cfg := c.(expired := c.expired.(prefetchTime := Arg(parts, "1200"))))
    case ForceAaaaSoa =>
      st.(cfg := c.(forceAaaaSoa := Arg(parts, "yes")))
    case ServerLine => AddRaw(st, parts)
    case Unknown => st
  }

  /** The port of a `bind` line: what follows the last colon of its
      address, or 5353 when the address is missing. */
  function PortArg(parts: seq<string>): string {
    if |parts| > 1 then AfterLast(parts[1], ':') else "5353"
  }

  /** A server line with an address adds one raw server; without one it
      is ignored. */
  function AddRaw(st: Scan, parts: seq<string>): (r: Scan)
    requires parts != []
    ensures r.cfg == st.cfg
  {
    if |parts| > 1 then st.(raw := st.raw + [Server(parts[1], parts[0], GroupOption(parts[2..]))])
    else st
  }

  /** The effect of a line that does not open a domain set: blank lines and
      comments change nothing, keyword lines update the settings. */
  function StepLine(st: Scan, line: string): (r: Scan)
    ensures Strip(line) == [] || "#" <= Strip(line) ==> r == st
    ensures r.cfg.domainSets == st.cfg.domainSets
  {
    var t := Strip(line);
    if t == [] || "#" <= t then st
    else
      var parts := Split(t);
      if parts == [] then st else ApplySetting(st, parts)
  }

  /** `domain-set -name N -file F ...`. */
  predicate SetHeader(parts: seq<string>) {
    |parts| >= 5 && parts[1] == "-name" && parts[3] == "-file"
  }

  /** A line that starts a domain-set block. */
  predicate OpensSet(line: string) {
    var t := Strip(line);
    t != [] && !("#" <= t) && Split(t) != [] && Split(t)[0] == "domain-set" && SetHeader(Split(t))
  }

  /** Two sets that agree on every field a `domain-rules` line cannot set. */
  predicate SameBesidesRules(a: DomainSet, b: DomainSet) {
    && a.name == b.name && a.friendlyName == b.friendlyName && a.file == b.file
    && a.group == b.group && a.sourceUrl == b.sourceUrl
    && a.lastUpdated == b.lastUpdated && a.domainCount == b.domainCount
  }

  /** Read the options of one `domain-rules` line, left to right; a later
      option overrides an earlier one. Each word is looked at together with
      the word after it, as the parser's index loop does. */
  function ApplyRule(ds: DomainSet, toks: seq<string>): (r: DomainSet)
    ensures SameBesidesRules(r, ds)
    decreases |toks|
  {
    if toks == [] then ds
    else
      var next :=
        if toks[0] == "-speed-check-mode" && |toks| > 1 then ds.(speedCheckMode := toks[1])
        else if toks[0] == "-response-mode" && |toks| > 1 then ds.(responseMode := toks[1])
        else if toks[0] == "-address" && |toks| > 1 && toks[1] == "-6" then ds.(addressIpv6 := true)
        else ds;
      ApplyRule(next, toks[1..])
  }

  /** Consume the `domain-rules` lines that follow a set; the count says how
      many lines were taken. */
  function ReadRules(ds: DomainSet, rest: seq<string>): (r: (DomainSet, nat))
    ensures r.1 <= |rest|
    ensures SameBesidesRules(r.0, ds)
    decreases |rest|
  {
    if rest != [] && StartsWith(rest[0], "domain-rules") then
      var (d, m) := ReadRules(ApplyRule(ds, Split(Strip(rest[0]))), rest[1..]);
      (d, m + 1)
    else (ds, 0)
  }

  /** Fill in the list statistics from the file system. */
  function WithStat(ds: DomainSet, stat: FileStat): (r: DomainSet)
    ensures r.name == ds.name && r.friendlyName == ds.friendlyName && r.file == ds.file
    ensures r.group == ds.group && r.sourceUrl == ds.sourceUrl
    ensures r.speedCheckMode == ds.speedCheckMode && r.responseMode == ds.responseMode
    ensures r.addressIpv6 == ds.addressIpv6
    ensures stat.Found? ==> r.domainCount == |Domains(stat.lines)| && r.lastUpdated == stat.modified
    ensures !stat.Found? ==> r.domainCount == 0
  {
    match stat
    case Missing => ds.(lastUpdated := "文件不存在", domainCount := 0)
    case Unreadable => ds.(lastUpdated := "读取失败", domainCount := 0)
    case Found(lines, modified) => ds.(domainCount := |Domains(lines)|, lastUpdated := modified)
  }

  /** A set as its header line describes it, before the lines after it are
      read: the friendly name and group are the name up to its first '-'. */
  function HeaderSet(parts: seq<string>): (ds: DomainSet)
    requires SetHeader(parts)
  {
    var friendly := BeforeFirst(parts[2], '-');
    DomainSet(parts[2], friendly, parts[4], friendly, "", "", 0, "ping", "fastest", false)
  }

  /** Whether the line after a header is a `# Source =` line. */
  predicate HasSource(rest: seq<string>) {
    rest != [] && StartsWith(rest[0], SOURCE_TAG)
  }

  /** The URL a `# Source =` line records. */
  function SourceUrl(line: string): string {
    Strip(RemoveAll(Strip(line), SOURCE_TAG))
  }

  /** Read one domain set from its header and the lines that follow it:
      an optional `# Source =` line, then any `domain-rules` lines. Returns
      the set and how many following lines it took. */
  function ReadDomainSet(parts: seq<string>, rest: seq<string>, stat: string -> FileStat)
    : (r: (DomainSet, nat))
    requires SetHeader(parts)
    ensures r.1 <= |rest| && (HasSource(rest) ==> r.1 >= 1)
    ensures r.0.name == parts[2] && r.0.file == parts[4]
    ensures r.0.friendlyName == BeforeFirst(parts[2], '-') && r.0.group == r.0.friendlyName
    ensures r.0.sourceUrl == if HasSource(rest) then SourceUrl(rest[0]) else ""
    ensures stat(parts[4]).Found? ==> r.0.domainCount == |Domains(stat(parts[4]).lines)|
    ensures !stat(parts[4]).Found? ==> r.0.domainCount == 0
  {
    var base := HeaderSet(parts);
    var skip := if HasSource(rest) then 1 else 0;
    var withSource := if HasSource(rest) then base.(sourceUrl := SourceUrl(rest[0])) else base;
    var (ruled, m) := ReadRules(withSource, rest[skip..]);
    (WithStat(ruled, stat(parts[4])), skip + m)
  }

  /** The parse loop over the lines of the file. */
  function ReadLines(lines: seq<string>, st: Scan, stat: string -> FileStat): (r: Scan)
    ensures st.cfg.domainSets <= r.cfg.domainSets
    ensures (forall i :: 0 <= i < |lines| ==> !OpensSet(lines[i])) ==> r.cfg.domainSets == st.cfg.domainSets
    decreases |lines|
  {
    if lines == [] then st
    else if OpensSet(lines[0]) then
      var (ds, n) := ReadDomainSet(Split(Strip(lines[0])), lines[1..], stat);
      ReadLines(lines[1 + n..], st.(cfg := st.cfg.(domainSets := st.cfg.domainSets + [ds])), stat)
    else ReadLines(lines[1..], StepLine(st, lines[0]), stat)
  }

  /** `read_config`: `None` is a file that is missing or cannot be decoded,
      which leaves every setting at its default. */
  function ReadConfig(file: Option<seq<string>>, stat: string -> FileStat): (r: Config)
    ensures file.None? ==> r == DEFAULTS
    ensures UniqueKeys(r.servers) && Populated(r.servers)
  {
    match file
    case None => DEFAULTS
    case Some(lines) =>
      var sc := ReadLines(lines, Scan(DEFAULTS, []), stat);
      sc.cfg.(servers := Merge(sc.raw))
  }

  /** The effect of a run of lines none of which opens a domain set. */
  function Steps(lines: seq<string>, st: Scan): Scan
    decreases |lines|
  {
    if lines == [] then st else Steps(lines[1..], StepLine(st, lines[0]))
  }

  lemma {:induction false} StepsAppend(a: seq<string>, b: seq<string>, st: Scan)
    ensures Steps(a + b, st) == Steps(b, Steps(a, st))
    decreases |a|
  {
    if a == [] {
      assert a + b == b;
    } else {
      assert (a + b)[0] == a[0] && (a + b)[1..] == a[1..] + b;
      StepsAppend(a[1..], b, StepLine(st, a[0]));
    }
  }

  /** Lines that open no domain set are read one at a time. */
  lemma {:induction false} ReadPlain(a: seq<string>, b: seq<string>, st: Scan, stat: string -> FileStat)
    requires forall i :: 0 <= i < |a| ==> !OpensSet(a[i])
    ensures ReadLines(a + b, st, stat) == ReadLines(b, Steps(a, st), stat)
    decreases |a|
  {
    if a == [] {
      assert a + b == b;
    } else {
      assert (a + b)[0] == a[0] && (a + b)[1..] == a[1..] + b;
      ReadPlain(a[1..], b, StepLine(st, a[0]), stat);
    }
  }

  /** A line of keyword and value words is read as that keyword and value. */
  lemma KeywordLine(st: Scan, ts: seq<string>)
    requires ts != [] && Token(ts[0]) && forall i :: 0 <= i < |ts| ==> Token(ts[i])
    requires ts[0][0] != '#' && ts[0] != "domain-set"
    ensures !OpensSet(Words(ts))
    ensures StepLine(st, Words(ts)) == ApplySetting(st, ts)
  {
    ParseWords(ts);
    WordsEnds(ts);
  }

  /** A comment line is passed over. */
  lemma CommentLine(st: Scan, line: string)
    requires line != [] && line[0] == '#'
    ensures !OpensSet(line)
    ensures StepLine(st, line) == st
  {
    HashLineIsComment(line);
  }

  lemma PortAfterColon(port: string)
    requires ':' !in port
    ensures AfterLast("[::]:" + port, ':') == port
  {
    assert "[::]:" + port == "[::]" + [':'] + port;
    AfterLastOf("[::]", ':', port);
  }

  /** A bind line gives back the port after the last ':' of its address, so
      the `[::]:P` form the writer uses reads as P. */
  lemma BindLineReadsPort(st: Scan, port: string)
    requires NoSpace(port) && ':' !in port
    ensures StepLine(st, Words(["bind", "[::]:" + port])).cfg.bind.port == port
  {
    BindWord();
    KeywordLine(st, ["bind", "[::]:" + port]);
    PortAfterColon(port);
  }

  /** The same for the TCP listener. */
  lemma BindTcpLineReadsPort(st: Scan, port: string)
    requires NoSpace(port) && ':' !in port
    ensures StepLine(st, Words(["bind-tcp", "[::]:" + port])).cfg.bind.tcpPort == port
  {
    BindTcpWord();
    KeywordLine(st, ["bind-tcp", "[::]:" + port]);
    PortAfterColon(port);
  }

  /** Prefixing two words to a token list keeps it a token list. */
  lemma ServerTokens(kind: string, address: string, opts: seq<string>)
    requires Token(kind) && Token(address)
    requires forall i :: 0 <= i < |opts| ==> Token(opts[i])
    ensures var ts := [kind, address] + opts; forall i :: 0 <= i < |ts| ==> Token(ts[i])
  {
    var ts := [kind, address] + opts;
    forall i | 0 <= i < |ts|
      ensures Token(ts[i])
    {
      if i >= 2 {
        assert ts[i] == opts[i - 2];
      }
    }
  }

  /** A server line of at least two words adds one raw server. */
  lemma ServerSetting(st: Scan, ts: seq<string>)
    requires |ts| > 1 && "server" <= ts[0] && forall i :: 0 <= i < |ts| ==> Token(ts[i])
    ensures StepLine(st, Words(ts))
      == st.(raw := st.raw + [Server(ts[1], ts[0], GroupOption(ts[2..]))])
  {
    assert ts[0] != "domain-set" by {
      assert ts[0][0] == 's' && "domain-set"[0] == 'd';
    }
    KeywordLine(st, ts);
    ServerKeyword(ts[0]);
    ServerApplied(st, ts);
  }

  lemma ServerApplied(st: Scan, parts: seq<string>)
    requires parts != [] && KeywordOf(parts[0]) == ServerLine
    ensures ApplySetting(st, parts) == AddRaw(st, parts)
  {
  }

  /** A server line is not a domain-set header. */
  lemma ServerClosed(ts: seq<string>)
    requires ts != [] && "server" <= ts[0] && forall i :: 0 <= i < |ts| ==> Token(ts[i])
    ensures !OpensSet(Words(ts))
  {
    assert ts[0] != "domain-set" by {
      assert ts[0][0] == 's' && "domain-set"[0] == 'd';
    }
    ParseWords(ts);
    WordsEnds(ts);
  }

  /** A server line with an address yields that address, its type from the
      keyword and its group from `-group`. */
  lemma ServerLineRead(st: Scan, kind: string, address: string, opts: seq<string>)
    requires "server" <= kind && Token(kind) && Token(address)
    requires forall i :: 0 <= i < |opts| ==> Token(opts[i])
    ensures !OpensSet(Words([kind, address] + opts))
    ensures StepLine(st, Words([kind, address] + opts))
      == st.(raw := st.raw + [Server(address, kind, GroupOption(opts))])
  {
    var ts := [kind, address] + opts;
    ServerTokens(kind, address, opts);
    ServerSetting(st, ts);
    ServerClosed(ts);
    assert ts[0] == kind && ts[1] == address && ts[2..] == opts;
  }

  /** A server keyword with no address is ignored. */
  lemma ServerWordIgnored(st: Scan, kind: string)
    requires "server" <= kind && Token(kind)
    ensures StepLine(st, kind) == st
  {
    assert kind != "domain-set" by {
      assert kind[0] == 's' && "domain-set"[0] == 'd';
    }
    ServerKeyword(kind);
    KeywordLine(st, [kind]);
  }

  /** A `cache-size` line switches the cache on and sets its size. */
  lemma CacheSizeEnables(st: Scan, size: string)
    requires Token(size)
    ensures StepLine(st, Words(["cache-size", size])).cfg.cache
      == st.cfg.cache.(size := size, enabled := "yes")
  {
    CacheSizeWord();
    KeywordLine(st, ["cache-size", size]);
  }
}
