/** Parameterised SQL text as the listing handlers build it: optional
    filter clauses, each ending in a `$k` placeholder, appended one after
    the other while the bound values are pushed onto a parameter list. */
module Sql {
  import opened Wrappers
  import opened Text

  /** A query-string value is used when it is present and not the empty
      string (JavaScript truthiness of a string). */
  predicate Given(o: Option<string>)
  {
    o.Some? && o.value != ""
  }

  /** One appended filter: its SQL text up to the placeholder, and the value
      pushed for it. */
  datatype Filter = Filter(sql: string, value: string)

  /** `$k`, as `$${paramCount}` prints it. */
  function Placeholder(k: nat): string
  {
    "$" + NatToString(k)
  }

  /** The clauses appended for `fs`, numbered consecutively from `first`. */
  function Clauses(fs: seq<Filter>, first: nat): string
    decreases |fs|
  {
    if fs == [] then "" else fs[0].sql + Placeholder(first) + Clauses(fs[1..], first + 1)
  }

  /** The values pushed for `fs`, in append order. */
  function Values(fs: seq<Filter>): (vs: seq<string>)
    ensures |vs| == |fs|
    ensures forall i :: 0 <= i < |fs| ==> vs[i] == fs[i].value
  {
    if fs == [] then [] else [fs[0].value] + Values(fs[1..])
  }

  lemma {:induction false} ClausesAppend(fs: seq<Filter>, gs: seq<Filter>, first: nat)
    ensures Clauses(fs + gs, first) == Clauses(fs, first) + Clauses(gs, first + |fs|)
    decreases |fs|
  {
    if fs != [] {
      assert (fs + gs)[1..] == fs[1..] + gs;
      ClausesAppend(fs[1..], gs, first + 1);
    } else {
      assert fs + gs == gs;
    }
  }

  /** Appending one more filter clause to a query built from `fs`: the
      query text and the value list grow exactly as for `fs + [f]`. */
  lemma AppendFilter(base: string, fs: seq<Filter>, f: Filter, first: nat)
    ensures (base + Clauses(fs, first)) + f.sql + Placeholder(first + |fs|) == base + Clauses(fs + [f], first)
  {
    ClausesAppend(fs, [f], first);
  }

  /** Filter `i` is rendered as its SQL followed by `$(first + i)`, between
      the clauses before it and the clauses after it. */
  lemma ClauseAt(fs: seq<Filter>, first: nat, i: nat)
    requires i < |fs|
    ensures Clauses(fs, first) == Clauses(fs[..i], first) + (fs[i].sql + Placeholder(first + i) + Clauses(fs[i + 1..], first + i + 1))
  {
    var rest := [fs[i]] + fs[i + 1..];
    assert fs == fs[..i] + rest;
    ClausesAppend(fs[..i], rest, first);
    assert rest[1..] == fs[i + 1..];
  }

  /** With the parameter list `prefix + Values(fs)` and the clauses numbered
      from `|prefix| + 1`, filter `i` is rendered as its SQL followed by
      `$k` for `k = |prefix| + 1 + i`, and `params[k-1]` is that filter's
      value: every placeholder names the parameter pushed with it. */
  lemma PlaceholderBindsItsValue(prefix: seq<string>, fs: seq<Filter>, i: nat)
    requires i < |fs|
    ensures var k := |prefix| + 1 + i;
      var params := prefix + Values(fs);
      Clauses(fs, |prefix| + 1) == Clauses(fs[..i], |prefix| + 1) + (fs[i].sql + Placeholder(k) + Clauses(fs[i + 1..], k + 1)) &&
      1 <= k <= |params| && params[k - 1] == fs[i].value
  {
    ClauseAt(fs, |prefix| + 1, i);
    assert (prefix + Values(fs))[|prefix| + i] == Values(fs)[i];
  }
}
