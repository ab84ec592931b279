/** The answer filter of the dashboard's DNS test: which addresses the
    output of `nslookup DOMAIN 127.0.0.1` is taken to resolve to. The
    subprocess itself is not modelled; its output arrives as its lines. */
module SmartDnsLookup {
  import opened Wrappers
  import opened Text

  const ANSWER_MARK: string := "Non-authoritative answer:"
  const ADDRESS_MARK: string := "Address:"

  /** The local resolver's own address, which nslookup also prints. */
  const LOCAL: string := "127.0.0.1"

  predicate IsMark(line: string) {
    StartsWith(line, ANSWER_MARK)
  }

  predicate AddressLine(line: string) {
    StartsWith(line, ADDRESS_MARK)
  }

  /** The last word of an `Address:` line. */
  function IpOf(line: string): (ip: string)
    requires AddressLine(line)
    ensures ip in Split(Strip(line))
  {
    var s := Strip(line);
    assert s[0] == 'A';
    SplitNonEmpty(s, 0);
    var ws := Split(s);
    ws[|ws| - 1]
  }

  /** An address that is neither the local resolver nor a `#53` server line. */
  predicate Usable(ip: string) {
    ip != LOCAL && !Contains(ip, "#53")
  }

  predicate Keeps(line: string) {
    AddressLine(line) && Usable(IpOf(line))
  }

  function KeptOf(line: string): (r: seq<string>)
    ensures |r| <= 1
    ensures forall ip :: ip in r ==> Usable(ip)
  {
    if Keeps(line) then [IpOf(line)] else []
  }

  /** Each element's contribution, concatenated in order. */
  function Collect<T, U>(xs: seq<T>, f: T -> seq<U>): seq<U> {
    if xs == [] then [] else f(xs[0]) + Collect(xs[1..], f)
  }

  /** The index of the first element satisfying `p`, if any. */
  function FirstWhere<T>(xs: seq<T>, p: T -> bool): (r: Option<nat>)
    ensures r.Some? ==> r.value < |xs| && p(xs[r.value])
  {
    if xs == [] then None
    else if p(xs[0]) then Some(0)
    else
      match FirstWhere(xs[1..], p)
      case None => None
      case Some(k) => Some(k + 1)
  }

  lemma {:induction false} CollectSnoc<T, U>(xs: seq<T>, x: T, f: T -> seq<U>)
    ensures Collect(xs + [x], f) == Collect(xs, f) + f(x)
  {
    if xs == [] {
      assert [] + [x] == [x];
      assert [x][1..] == [];
    } else {
      assert (xs + [x])[0] == xs[0];
      assert (xs + [x])[1..] == xs[1..] + [x];
      CollectSnoc(xs[1..], x, f);
    }
  }

  lemma {:induction false} FirstWhereSnoc<T>(xs: seq<T>, x: T, p: T -> bool)
    ensures FirstWhere(xs + [x], p)
      == if FirstWhere(xs, p).Some? then FirstWhere(xs, p)
         else if p(x) then Some(|xs|)
         else None
  {
    if xs == [] {
      assert [] + [x] == [x];
      assert [x][1..] == [];
    } else {
      assert (xs + [x])[0] == xs[0];
      assert (xs + [x])[1..] == xs[1..] + [x];
      FirstWhereSnoc(xs[1..], x, p);
    }
  }

  /** The contributions of the elements after the first one satisfying
      `p`; nothing when none does. */
  function AfterFirst<T, U>(xs: seq<T>, p: T -> bool, f: T -> seq<U>): seq<U> {
    match FirstWhere(xs, p)
    case None => []
    case Some(k) => Collect(xs[k + 1..], f)
  }

  lemma AfterFirstSnoc<T, U>(xs: seq<T>, x: T, p: T -> bool, f: T -> seq<U>)
    ensures AfterFirst(xs + [x], p, f)
      == if FirstWhere(xs, p).Some? then AfterFirst(xs, p, f) + f(x) else []
  {
    FirstWhereSnoc(xs, x, p);
    var first := FirstWhere(xs, p);
    if first.Some? {
      var k := first.value;
      assert (xs + [x])[k + 1..] == xs[k + 1..] + [x];
      CollectSnoc(xs[k + 1..], x, f);
    } else if p(x) {
      assert (xs + [x])[|xs| + 1..] == [];
    }
  }

  /** The addresses of the answer: the usable `Address:` lines after the
      first answer mark; nothing when there is no mark. */
  function Answers(lines: seq<string>): seq<string> {
    AfterFirst(lines, IsMark, KeptOf)
  }

  /** A mark line is never an address line. */
  lemma MarkNotAddress(line: string)
    requires IsMark(line)
    ensures !AddressLine(line)
  {
    var s := Strip(line);
    assert s[0] == 'N';
  }

  /** The scan of the parse loop: switch on at the first element
      satisfying `p` (which itself contributes nothing), then gather the
      contributions of the elements after it. */
  method GatherAfterFirst<T, U>(xs: seq<T>, p: T -> bool, f: T -> seq<U>) returns (out: seq<U>)
    requires forall x :: p(x) ==> f(x) == []
    ensures out == AfterFirst(xs, p, f)
  {
    var found := false;
    out := [];
    var i := 0;
    while i < |xs|
      invariant 0 <= i <= |xs|
      invariant found <==> FirstWhere(xs[..i], p).Some?
      invariant out == AfterFirst(xs[..i], p, f)
    {
      var x := xs[i];
      assert xs[..i + 1] == xs[..i] + [x];
      AfterFirstSnoc(xs[..i], x, p, f);
      FirstWhereSnoc(xs[..i], x, p);
      if p(x) {
        assert out + f(x) == out;
        found := true;
      } else if found {
        out := out + f(x);
      }
      i := i + 1;
    }
    assert xs[..i] == xs;
  }

  lemma MarksKeepNothing()
    ensures forall line :: IsMark(line) ==> KeptOf(line) == []
  {
    forall line | IsMark(line)
      ensures KeptOf(line) == []
    {
      MarkNotAddress(line);
    }
  }

  lemma AnswersUsable(output: seq<string>)
    ensures forall ip :: ip in Answers(output) ==> Usable(ip)
  {
    forall ip | ip in Answers(output)
      ensures Usable(ip)
    {
      var first := FirstWhere(output, IsMark);
      var rest := output[first.value + 1..];
      CollectHas(rest, KeptOf, ip);
      var j :| 0 <= j < |rest| && ip in KeptOf(rest[j]);
    }
  }

  /** The parse of `test_dns_resolution`: walk the lines, switch on at the
      answer mark, collect the usable addresses after it. The test passes
      exactly when one was found. */
  method ReadLookup(output: seq<string>) returns (ok: bool, ips: seq<string>)
    ensures ips == Answers(output)
    ensures ok <==> ips != []
    ensures forall ip :: ip in ips ==> Usable(ip)
  {
    MarksKeepNothing();
    ips := GatherAfterFirst(output, IsMark, KeptOf);
    AnswersUsable(output);
    ok := ips != [];
  }

  lemma {:induction false} FirstWhereAt<T>(before: seq<T>, m: T, after: seq<T>, p: T -> bool)
    requires p(m) && forall j :: 0 <= j < |before| ==> !p(before[j])
    ensures FirstWhere(before + [m] + after, p) == Some(|before|)
  {
    if before == [] {
      assert (before + [m] + after)[0] == m;
    } else {
      var xs := before + [m] + after;
      assert xs[0] == before[0];
      assert xs[1..] == before[1..] + [m] + after;
      FirstWhereAt(before[1..], m, after, p);
    }
  }

  lemma {:induction false} CollectHas<T, U>(xs: seq<T>, f: T -> seq<U>, u: U)
    ensures u in Collect(xs, f) <==> exists j :: 0 <= j < |xs| && u in f(xs[j])
  {
    if xs != [] {
      CollectHas(xs[1..], f, u);
      if exists j :: 0 <= j < |xs[1..]| && u in f(xs[1..][j]) {
        var j :| 0 <= j < |xs[1..]| && u in f(xs[1..][j]);
        assert xs[j + 1] == xs[1..][j];
      }
      if exists j :: 0 <= j < |xs| && u in f(xs[j]) {
        var j :| 0 <= j < |xs| && u in f(xs[j]);
        if j > 0 {
          assert xs[1..][j - 1] == xs[j];
        }
      }
    }
  }

  /** An address is collected exactly when some line yields it. */
  lemma CollectedExactly(lines: seq<string>, ip: string)
    ensures ip in Collect(lines, KeptOf)
      <==> exists j :: 0 <= j < |lines| && Keeps(lines[j]) && IpOf(lines[j]) == ip
  {
    CollectHas(lines, KeptOf, ip);
    assert forall j :: 0 <= j < |lines| ==>
      (ip in KeptOf(lines[j]) <==> Keeps(lines[j]) && IpOf(lines[j]) == ip);
  }

  /** With the answer mark after `before`, an address is reported exactly
      when some `Address:` line after the mark has it as its usable last
      word; the lines before the mark never count. */
  lemma AnswersExactly(before: seq<string>, mark: string, after: seq<string>, ip: string)
    requires IsMark(mark) && forall j :: 0 <= j < |before| ==> !IsMark(before[j])
    ensures ip in Answers(before + [mark] + after)
      <==> exists j :: 0 <= j < |after| && Keeps(after[j]) && IpOf(after[j]) == ip
  {
    var xs := before + [mark] + after;
    FirstWhereAt(before, mark, after, IsMark);
    assert xs[|before| + 1..] == after;
    CollectedExactly(after, ip);
  }

  lemma {:induction false} FirstWhereNone<T>(xs: seq<T>, p: T -> bool)
    requires forall j :: 0 <= j < |xs| ==> !p(xs[j])
    ensures FirstWhere(xs, p) == None
  {
    if xs != [] {
      FirstWhereNone(xs[1..], p);
    }
  }

  /** Output without the answer mark reports nothing, so the test fails. */
  lemma NoMarkNoAnswers(output: seq<string>)
    requires forall j :: 0 <= j < |output| ==> !IsMark(output[j])
    ensures Answers(output) == []
  {
    FirstWhereNone(output, IsMark);
  }
}
