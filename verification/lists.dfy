/** Order-preserving list helpers for enumerations built from pieces. */
module Lists {
  import opened Wrappers

  /** The present values of `s`, in order. */
  function Somes<T>(s: seq<Option<T>>): seq<T>
  {
    if s == [] then []
    else (match s[0] case None => [] case Some(p) => [p]) + Somes(s[1..])
  }

  lemma {:induction false} SomesExactly<T>(s: seq<Option<T>>, p: T)
    ensures p in Somes(s) <==> exists i :: 0 <= i < |s| && s[i] == Some(p)
  {
    if s != [] {
      SomesExactly(s[1..], p);
      if exists i :: 0 <= i < |s[1..]| && s[1..][i] == Some(p) {
        var i :| 0 <= i < |s[1..]| && s[1..][i] == Some(p);
        assert s[i + 1] == Some(p);
      }
      if exists i :: 1 <= i < |s| && s[i] == Some(p) {
        var i :| 1 <= i < |s| && s[i] == Some(p);
        assert s[1..][i - 1] == Some(p);
      }
    }
  }

  /** The lists one after another. */
  function Flatten<T>(ss: seq<seq<T>>): seq<T>
  {
    if ss == [] then [] else ss[0] + Flatten(ss[1..])
  }

  lemma {:induction false} FlattenExactly<T>(ss: seq<seq<T>>, p: T)
    ensures p in Flatten(ss) <==> exists i :: 0 <= i < |ss| && p in ss[i]
  {
    if ss != [] {
      FlattenExactly(ss[1..], p);
      if exists i :: 0 <= i < |ss[1..]| && p in ss[1..][i] {
        var i :| 0 <= i < |ss[1..]| && p in ss[1..][i];
        assert ss[i + 1] == ss[1..][i];
      }
      if exists i :: 1 <= i < |ss| && p in ss[i] {
        var i :| 1 <= i < |ss| && p in ss[i];
        assert ss[1..][i - 1] == ss[i];
      }
    }
  }
}
