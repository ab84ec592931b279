/** Where the writer's ordering and the parser's merge leave each server
    address: the list of addresses filed under a (group, type) pair survives
    the write-then-read cycle unchanged. */
module SmartDnsFiling {
  import opened Text
  import opened Sorting
  import opened SmartDnsConfig
  import opened SmartDnsWrite

  lemma {:induction false} ForConcat(a: seq<ServerGroup>, b: seq<ServerGroup>, g: string, t: string)
    ensures AddressesFor(a + b, g, t) == AddressesFor(a, g, t) + AddressesFor(b, g, t)
    decreases |b|
  {
    if b == [] {
      assert a + b == a;
    } else {
      var front := b[..|b| - 1];
      var x := b[|b| - 1];
      assert a + b == (a + front) + [x];
      assert b == front + [x];
      ForConcat(a, front, g, t);
      ForAppend(a + front, x, g, t);
      ForAppend(front, x, g, t);
    }
  }

  /** Inserting an entry into a list sorted by group puts it after every
      entry of its own group, so each pair's addresses keep their order. */
  lemma {:induction false} InsertFiles(x: ServerGroup, s: seq<ServerGroup>, g: string, t: string)
    requires SortedBy(s, GroupLe)
    ensures AddressesFor(Insert(x, s, GroupLe), g, t) == AddressesFor(s + [x], g, t)
  {
    if s != [] {
      var rest := s[1..];
      assert s == [s[0]] + rest;
      if GroupLe(s[0], x) {
        InsertFiles(x, rest, g, t);
        ForConcat([s[0]], Insert(x, rest, GroupLe), g, t);
        assert s + [x] == [s[0]] + (rest + [x]);
        ForConcat([s[0]], rest + [x], g, t);
      } else {
        ForConcat([x], s, g, t);
        ForConcat(s, [x], g, t);
        if SameKey(x, g, t) {
          forall i | 0 <= i < |s|
            ensures !SameKey(s[i], g, t)
          {
            if SameKey(s[i], g, t) && i == 0 {
              StrLeRefl(x.group);
            }
          }
          ForNone(s, g, t);
        }
      }
    }
  }

  /** Sorting by group is stable, so no pair's addresses change order. */
  lemma {:induction false} SortFiles(s: seq<ServerGroup>, g: string, t: string)
    requires TotalPreorderOn(s, GroupLe)
    ensures AddressesFor(InsertionSort(s, GroupLe), g, t) == AddressesFor(s, g, t)
  {
    if s != [] {
      var front := s[..|s| - 1];
      var x := s[|s| - 1];
      assert s == front + [x];
      GroupOrder(front);
      GroupOrder(InsertionSort(front, GroupLe) + [x]);
      SortFiles(front, g, t);
      InsertFiles(x, InsertionSort(front, GroupLe), g, t);
      ForConcat(InsertionSort(front, GroupLe), [x], g, t);
      ForConcat(front, [x], g, t);
    }
  }

  lemma {:induction false} NamedFiles(gs: seq<ServerGroup>, g: string, t: string)
    ensures AddressesFor(Named(gs), g, t) == if g == COMMON then [] else AddressesFor(gs, g, t)
  {
    if gs != [] {
      var front := gs[..|gs| - 1];
      var x := gs[|gs| - 1];
      NamedFiles(front, g, t);
      assert gs == front + [x];
      ForAppend(front, x, g, t);
      if x.group != COMMON {
        ForAppend(Named(front), x, g, t);
      } else {
        assert Named(gs) == Named(front);
        assert g != COMMON ==> !SameKey(x, g, t);
      }
    }
  }

  lemma {:induction false} CommonFiles(gs: seq<ServerGroup>, g: string, t: string)
    ensures AddressesFor(Common(gs), g, t) == if g == COMMON then AddressesFor(gs, g, t) else []
  {
    if gs != [] {
      var front := gs[..|gs| - 1];
      var x := gs[|gs| - 1];
      CommonFiles(front, g, t);
      assert gs == front + [x];
      ForAppend(front, x, g, t);
      if x.group == COMMON {
        ForAppend(Common(front), x, g, t);
      } else {
        assert Common(gs) == Common(front);
        assert g == COMMON ==> !SameKey(x, g, t);
      }
    }
  }

  /** The writer's order files every address under the same pair, in the
      same order, as the entries it started from. */
  lemma OrderedFiles(gs: seq<ServerGroup>, g: string, t: string)
    ensures AddressesFor(Ordered(gs), g, t) == AddressesFor(gs, g, t)
  {
    GroupOrder(Named(gs));
    assert Ordered(gs) == SortedNamed(gs) + Common(gs);
    ForConcat(SortedNamed(gs), Common(gs), g, t);
    SortFiles(Named(gs), g, t);
    NamedFiles(gs, g, t);
    CommonFiles(gs, g, t);
    var named := AddressesFor(SortedNamed(gs), g, t);
    var common := AddressesFor(Common(gs), g, t);
    if g == COMMON {
      assert named == [] && named + common == common;
    } else {
      assert common == [] && named + common == named;
    }
  }

  /** The server lines one entry's addresses turn into. */
  function Spread(kind: string, group: string, addresses: seq<string>): (r: seq<Server>)
    ensures |r| == |addresses|
  {
    if addresses == [] then []
    else
      Spread(kind, group, addresses[..|addresses| - 1])
        + [Server(addresses[|addresses| - 1], kind, group)]
  }

  /** The server lines a list of entries turns into, entry by entry. */
  function Flat(gs: seq<ServerGroup>): seq<Server> {
    if gs == [] then []
    else
      var x := gs[|gs| - 1];
      Flat(gs[..|gs| - 1]) + Spread(x.kind, x.group, x.addresses)
  }

  lemma OfAppend(raw: seq<Server>, s: Server, g: string, t: string)
    ensures AddressesOf(raw + [s], g, t)
      == AddressesOf(raw, g, t) + (if s.group == g && s.kind == t then [s.address] else [])
  {
    assert (raw + [s])[..|raw|] == raw;
  }

  lemma {:induction false} OfConcat(a: seq<Server>, b: seq<Server>, g: string, t: string)
    ensures AddressesOf(a + b, g, t) == AddressesOf(a, g, t) + AddressesOf(b, g, t)
    decreases |b|
  {
    if b == [] {
      assert a + b == a;
    } else {
      var front := b[..|b| - 1];
      var x := b[|b| - 1];
      assert a + b == (a + front) + [x];
      assert b == front + [x];
      OfConcat(a, front, g, t);
      OfAppend(a + front, x, g, t);
      OfAppend(front, x, g, t);
    }
  }

  lemma {:induction false} SpreadFiles(kind: string, group: string, addresses: seq<string>,
                                       g: string, t: string)
    ensures AddressesOf(Spread(kind, group, addresses), g, t)
      == if group == g && kind == t then addresses else []
  {
    if addresses != [] {
      var front := addresses[..|addresses| - 1];
      var last := addresses[|addresses| - 1];
      SpreadFiles(kind, group, front, g, t);
      OfAppend(Spread(kind, group, front), Server(last, kind, group), g, t);
      if group == g && kind == t {
        assert addresses == front + [last];
      } else {
        assert AddressesOf(Spread(kind, group, front), g, t) == [];
      }
    }
  }

  /** Spelling the entries out line by line loses no address and files
      none under another pair. */
  lemma {:induction false} FlatFiles(gs: seq<ServerGroup>, g: string, t: string)
    ensures AddressesOf(Flat(gs), g, t) == AddressesFor(gs, g, t)
  {
    if gs != [] {
      var front := gs[..|gs| - 1];
      var x := gs[|gs| - 1];
      FlatFiles(front, g, t);
      OfConcat(Flat(front), Spread(x.kind, x.group, x.addresses), g, t);
      SpreadFiles(x.kind, x.group, x.addresses, g, t);
    }
  }

  /** Writing the entries in the writer's order and merging the server lines
      back files every address under its pair, in its order. */
  lemma MergeWritten(gs: seq<ServerGroup>, g: string, t: string)
    ensures AddressesFor(Merge(Flat(SortedNamed(gs)) + Flat(Common(gs))), g, t)
      == AddressesFor(gs, g, t)
  {
    var raw := Flat(SortedNamed(gs)) + Flat(Common(gs));
    MergeAddresses(raw, g, t);
    OfConcat(Flat(SortedNamed(gs)), Flat(Common(gs)), g, t);
    FlatFiles(SortedNamed(gs), g, t);
    FlatFiles(Common(gs), g, t);
    ForConcat(SortedNamed(gs), Common(gs), g, t);
    OrderedFiles(gs, g, t);
  }
}
