/** The loader's seeding of the tail-call array. */
module ProgArray {
  import opened Bytes
  import opened Routes
  import opened Formats

  const PROG_ARRAY_MAX := 64

  const INDEXED_STEM: seq<byte> := Ascii("zereh_app_")
  const DEFAULT_NAME: seq<byte> := Ascii("zereh_app_default")

  /** The programs of the compiled object by name; a value is the program's file descriptor. */
  type Object = map<seq<byte>, int>

  function Find<K>(m: map<K, int>, key: K): Option<int> {
    if key in m then Some(m[key]) else None
  }

  /** An explicit name is binding; otherwise the indexed program, otherwise the default. */
  function Resolve(obj: Object, r: Route): Option<int> {
    if r.progName != [] then Find(obj, r.progName)
    else
      match Find(obj, IndexedName(r.progIndex))
      case Some(fd) => Some(fd)
      case None => Find(obj, DEFAULT_NAME)
  }

  function IndexedName(index: nat): seq<byte> {
    INDEXED_STEM + Decimal(index)
  }

  /** The program names a route would accept, best first: a name that is asked for has no substitute. */
  function Candidates(r: Route): seq<seq<byte>> {
    if r.progName != [] then [r.progName] else [IndexedName(r.progIndex), DEFAULT_NAME]
  }

  /** The first of the names that the object knows. */
  ghost predicate FirstKnown(obj: Object, names: seq<seq<byte>>, fd: Option<int>) {
    if fd.None? then forall i :: 0 <= i < |names| ==> names[i] !in obj
    else exists i :: 0 <= i < |names| && names[i] in obj && obj[names[i]] == fd.value
                     && forall j :: 0 <= j < i ==> names[j] !in obj
  }

  /** Different indexes ask for different programs, and none of them for the default. */
  lemma IndexedNamesApart(m: nat, n: nat)
    ensures IndexedName(m) == IndexedName(n) ==> m == n
    ensures IndexedName(m) != DEFAULT_NAME
  {
    var stem := |INDEXED_STEM|;
    assert IndexedName(m)[stem..] == Decimal(m) && IndexedName(n)[stem..] == Decimal(n);
    if IndexedName(m) == IndexedName(n) {
      DecimalInjective(m, n);
    }
    DecimalDigits(m);
    DecimalNonEmpty(m);
    assert IndexedName(m)[stem] == Decimal(m)[0];
    assert DEFAULT_NAME[stem] == 100;
  }

  /** What makes the loader give up at a route. */
  predicate Bindable(obj: Object, r: Route) {
    r.target.XdpProg? ==> r.progIndex < PROG_ARRAY_MAX && Resolve(obj, r).Some? && Resolve(obj, r).value >= 0
  }

  /** The last of the first n routes that tail-calls through this index. */
  function LastUser(routes: seq<Route>, index: nat, n: nat): (r: Option<nat>)
    requires n <= |routes|
    ensures r.Some? ==> r.value < n && routes[r.value].target.XdpProg? && routes[r.value].progIndex == index
    ensures forall j :: 0 <= j < n && routes[j].target.XdpProg? && routes[j].progIndex == index ==>
              r.Some? && j <= r.value
  {
    if n == 0 then None
    else if routes[n - 1].target.XdpProg? && routes[n - 1].progIndex == index then Some(n - 1)
    else LastUser(routes, index, n - 1)
  }

  /** Every slot holds the program of the last of the first n routes that uses it, or what was there before. */
  ghost predicate Seeded(slots: map<nat, int>, before: map<nat, int>, obj: Object, routes: seq<Route>, n: nat)
    requires n <= |routes|
  {
    forall index: nat :: SeededAt(slots, before, obj, routes, n, index)
  }

  predicate SeededAt(slots: map<nat, int>, before: map<nat, int>, obj: Object, routes: seq<Route>, n: nat, index: nat)
    requires n <= |routes|
  {
    match LastUser(routes, index, n)
    case Some(i) => Resolve(obj, routes[i]).Some? && Find(slots, index) == Resolve(obj, routes[i])
    case None => Find(slots, index) == Find(before, index)
  }

  lemma SeededContinues(slots: map<nat, int>, before: map<nat, int>, obj: Object, routes: seq<Route>, n: nat)
    requires n < |routes| && Seeded(slots, before, obj, routes, n) && Bindable(obj, routes[n])
    ensures var r := routes[n];
            var after := if r.target.XdpProg? then slots[r.progIndex := Resolve(obj, r).value] else slots;
            Seeded(after, before, obj, routes, n + 1)
  {
    hide Resolve;
    var r := routes[n];
    var after := if r.target.XdpProg? then slots[r.progIndex := Resolve(obj, r).value] else slots;
    var m := n + 1;
    forall index: nat
      ensures SeededAt(after, before, obj, routes, m, index)
    {
      assert SeededAt(slots, before, obj, routes, n, index);
    }
  }

  lemma SeededStarts(slots: map<nat, int>, obj: Object, routes: seq<Route>)
    ensures Seeded(slots, slots, obj, routes, 0)
  {
  }

  class ProgMap {
    var slots: map<nat, int>

    constructor ()
      ensures slots == map[]
    {
      slots := map[];
    }

    method ResolveTailProgram(obj: Object, r: Route, defaultTail: Option<int>) returns (fd: Option<int>)
      requires defaultTail == Find(obj, DEFAULT_NAME)
      ensures fd == Resolve(obj, r)
      ensures FirstKnown(obj, Candidates(r), fd)
      ensures r.progName != [] ==> (fd.Some? <==> r.progName in obj) && (fd.Some? ==> fd.value == obj[r.progName])
      ensures r.progName == [] && IndexedName(r.progIndex) in obj ==> fd == Some(obj[IndexedName(r.progIndex)])
      ensures r.progName == [] && IndexedName(r.progIndex) !in obj && DEFAULT_NAME in obj ==>
                fd == Some(obj[DEFAULT_NAME])
    {
      hide IndexedName;
      assert Candidates(r)[0] == if r.progName != [] then r.progName else IndexedName(r.progIndex);
      assert r.progName == [] ==> Candidates(r)[1] == DEFAULT_NAME;
      if r.progName != [] {
        fd := Find(obj, r.progName);
        return;
      }
      fd := Find(obj, IndexedName(r.progIndex));
      if fd.None? {
        fd := defaultTail;
      }
    }

    /** Stops at the first route that cannot be bound; done is how many routes were gone through. */
    method SeedProgArray(obj: Object, routes: seq<Route>) returns (ok: bool, done: nat)
      modifies this
      ensures done <= |routes| && Seeded(slots, old(slots), obj, routes, done)
      ensures forall i :: 0 <= i < done ==> Bindable(obj, routes[i])
      ensures ok == (done == |routes|)
      ensures !ok ==> !Bindable(obj, routes[done])
    {
      hide Resolve, Seeded;
      var defaultTail := Find(obj, DEFAULT_NAME);
      done := 0;
      SeededStarts(slots, obj, routes);
      while done < |routes|
        invariant 0 <= done <= |routes|
        invariant Seeded(slots, old(slots), obj, routes, done)
        invariant forall i :: 0 <= i < done ==> Bindable(obj, routes[i])
      {
        var r := routes[done];
        ghost var before := slots;
        if r.target.XdpProg? {
          if r.progIndex >= PROG_ARRAY_MAX {
            return false, done;
          }
          var fd := ResolveTailProgram(obj, r, defaultTail);
          if fd.None? || fd.value < 0 {
            return false, done;
          }
          slots := slots[r.progIndex := fd.value];
        }
        SeededContinues(before, old(slots), obj, routes, done);
        done := done + 1;
      }
      ok := true;
    }
  }

  /** After successful seeding every emitted tail-call index is in range and bound to its last user's program. */
  lemma TailCallsBound(slots: map<nat, int>, before: map<nat, int>, obj: Object, routes: seq<Route>, i: nat)
    requires Seeded(slots, before, obj, routes, |routes|)
    requires forall j :: 0 <= j < |routes| ==> Bindable(obj, routes[j])
    requires i < |routes| && routes[i].target.XdpProg?
    ensures var index := routes[i].progIndex;
            && index < PROG_ARRAY_MAX
            && index in slots
            && LastUser(routes, index, |routes|).Some?
            && Some(slots[index]) == Resolve(obj, routes[LastUser(routes, index, |routes|).value])
  {
    hide Resolve;
    assert SeededAt(slots, before, obj, routes, |routes|, routes[i].progIndex);
  }
}
