/** How often something occurs in a list. */
module Occurrences {

  function Times<T(==)>(ts: seq<T>, t: T): nat { multiset(ts)[t] }

  lemma TimesMore<T>(ts: seq<T>, u: T, t: T)
    ensures Times(ts + [u], t) == Times(ts, t) + if u == t then 1 else 0
  {}

  lemma TimesFirst<T>(ts: seq<T>, t: T)
    requires ts != []
    ensures Times(ts, t) == Times(ts[1..], t) + if ts[0] == t then 1 else 0
  {
    assert ts == [ts[0]] + ts[1..];
  }
}
