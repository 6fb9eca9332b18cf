/** Concrete schedules, for the properties that fail without their hypothesis. */
module Schedules {
  import opened FileSystem
  import opened Publishing

  /** The calls are possible one after the other, whatever they assume about names, and
      end in `end`. */
  ghost predicate Leads(s: State, acts: seq<Act>, end: State)
    decreases |acts|
  {
    if acts == [] then s == end else Enabled(s, acts[0]) && Leads(Apply(s, acts[0]), acts[1..], end)
  }

  lemma One(s: State, a: Act) returns (end: State)
    requires Enabled(s, a)
    ensures end == Apply(s, a) && Leads(s, [a], end)
  {
    end := Apply(s, a);
    assert [a][1..] == [];
  }

  lemma Two(s: State, a: Act, b: Act) returns (end: State)
    requires Enabled(s, a) && Enabled(Apply(s, a), b)
    ensures end == Apply(Apply(s, a), b) && Leads(s, [a, b], end)
  {
    end := Apply(Apply(s, a), b);
    assert [a, b][1..] == [b];
    assert Leads(Apply(s, a), [b], end);
  }

  lemma LeadsFrom(s: State, a: Act, rest: seq<Act>, end: State)
    requires Enabled(s, a) && Leads(Apply(s, a), rest, end)
    ensures Leads(s, [a] + rest, end)
  {
    assert ([a] + rest)[0] == a && ([a] + rest)[1..] == rest;
  }

  lemma {:induction false} Then(s: State, first: seq<Act>, middle: State, rest: seq<Act>, end: State)
    requires Leads(s, first, middle) && Leads(middle, rest, end)
    ensures Leads(s, first + rest, end)
    decreases |first|
  {
    if first == [] {
      assert first + rest == rest;
    } else {
      Then(Apply(s, first[0]), first[1..], middle, rest, end);
      LeadsFrom(s, first[0], first[1..] + rest, end);
      assert [first[0]] + (first[1..] + rest) == first + rest;
    }
  }

  function EmptyDirectory(): State {
    State(FS(map[0 := Dir(0)], map[], map[]), map[], [], map[], {}, {}, 100)
  }

  lemma EmptyIsInitial()
    ensures Initial(EmptyDirectory())
  {
  }

  lemma TwoAllowed(s: State, a: Act, b: Act)
    requires Allowed(s, a) && Allowed(Apply(s, a), b)
    ensures AllowedRun(s, [a, b]) && After(s, [a, b]) == Apply(Apply(s, a), b)
  {
    assert [a, b][1..] == [b] && [b][1..] == [];
    assert AllowedRun(Apply(s, a), [b]) && After(Apply(s, a), [b]) == Apply(Apply(s, a), b);
  }
}
