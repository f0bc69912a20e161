/**
 * Key merging over plain objects: `withDefaults`/`_withDefaults` and
 * `extend`/`_extend` of lib/util/index.js.  A plain object is a mutable
 * dictionary from its own enumerable property names to values; both
 * operations assign into the destination object in place.
 */
module ObjectMerge {

  /** A plain object, by its own enumerable properties. */
  class Dict<V> {
    var props: map<string, V>

    constructor (props: map<string, V>)
      ensures this.props == props
    {
      this.props := props;
    }
  }

  /** What `_withDefaults(destination, source)` leaves in `destination`. */
  function Defaults<V>(dest: map<string, V>, source: map<string, V>): (r: map<string, V>)
    ensures r.Keys == dest.Keys + source.Keys
    ensures forall k :: k in dest ==> r[k] == dest[k]
    ensures forall k :: k in source && k !in dest ==> r[k] == source[k]
  {
    map k | k in dest.Keys + source.Keys :: if k in dest then dest[k] else source[k]
  }

  /** What `_extend(destination, source)` leaves in `destination`. */
  function Extend<V>(dest: map<string, V>, source: map<string, V>): (r: map<string, V>)
    ensures r.Keys == dest.Keys + source.Keys
    ensures forall k :: k in source ==> r[k] == source[k]
    ensures forall k :: k in dest && k !in source ==> r[k] == dest[k]
  {
    dest + source
  }

  /** `_withDefaults` applied to each source in turn. */
  function DefaultsAll<V>(dest: map<string, V>, sources: seq<map<string, V>>): map<string, V>
  {
    if sources == [] then dest
    else Defaults(DefaultsAll(dest, sources[..|sources| - 1]), sources[|sources| - 1])
  }

  /** `_extend` applied to each source in turn. */
  function ExtendAll<V>(dest: map<string, V>, sources: seq<map<string, V>>): map<string, V>
  {
    if sources == [] then dest
    else Extend(ExtendAll(dest, sources[..|sources| - 1]), sources[|sources| - 1])
  }

  /** Every key that occurs in some source. */
  function SourceKeys<V>(sources: seq<map<string, V>>): set<string>
  {
    if sources == [] then {}
    else SourceKeys(sources[..|sources| - 1]) + sources[|sources| - 1].Keys
  }

  lemma {:induction false} SourceKeysMember<V>(sources: seq<map<string, V>>, k: string)
    ensures k in SourceKeys(sources) <==> exists i :: 0 <= i < |sources| && k in sources[i]
  {
    if sources != [] {
      var init := sources[..|sources| - 1];
      SourceKeysMember(init, k);
      if k in SourceKeys(init) {
        var i :| 0 <= i < |init| && k in init[i];
        assert k in sources[i];
      }
      forall i | 0 <= i < |sources| - 1 && k in sources[i] ensures k in SourceKeys(init) {
        assert init[i] == sources[i];
      }
    }
  }

  /** `withDefaults` never drops a key: the result has exactly the keys of the destination and all sources. */
  lemma {:induction false} DefaultsAllKeys<V>(dest: map<string, V>, sources: seq<map<string, V>>)
    ensures DefaultsAll(dest, sources).Keys == dest.Keys + SourceKeys(sources)
  {
    if sources != [] {
      DefaultsAllKeys(dest, sources[..|sources| - 1]);
    }
  }

  /** `withDefaults` never overwrites a key the destination already had. */
  lemma {:induction false} DefaultsAllKeepsDest<V>(dest: map<string, V>, sources: seq<map<string, V>>, k: string)
    requires k in dest
    ensures k in DefaultsAll(dest, sources) && DefaultsAll(dest, sources)[k] == dest[k]
  {
    if sources != [] {
      DefaultsAllKeepsDest(dest, sources[..|sources| - 1], k);
    }
  }

  /**
   * A key missing from the destination takes its value from the FIRST source
   * that has it: a key filled by an earlier source is never overwritten later.
   */
  lemma {:induction false} DefaultsAllFirstSourceWins<V>(dest: map<string, V>, sources: seq<map<string, V>>, k: string, i: nat)
    requires k !in dest
    requires i < |sources| && k in sources[i]
    requires forall j :: 0 <= j < i ==> k !in sources[j]
    ensures k in DefaultsAll(dest, sources) && DefaultsAll(dest, sources)[k] == sources[i][k]
  {
    var init := sources[..|sources| - 1];
    if i == |sources| - 1 {
      DefaultsAllKeys(dest, init);
      SourceKeysMember(init, k);
      forall j | 0 <= j < |init| ensures k !in init[j] {
        assert init[j] == sources[j];
      }
    } else {
      DefaultsAllFirstSourceWins(dest, init, k, i);
    }
  }

  /** `extend` keeps every key of the destination and of every source. */
  lemma {:induction false} ExtendAllKeys<V>(dest: map<string, V>, sources: seq<map<string, V>>)
    ensures ExtendAll(dest, sources).Keys == dest.Keys + SourceKeys(sources)
  {
    if sources != [] {
      ExtendAllKeys(dest, sources[..|sources| - 1]);
    }
  }

  /** Under `extend` a key takes its value from the LAST source that has it. */
  lemma {:induction false} ExtendAllLastSourceWins<V>(dest: map<string, V>, sources: seq<map<string, V>>, k: string, i: nat)
    requires i < |sources| && k in sources[i]
    requires forall j :: i < j < |sources| ==> k !in sources[j]
    ensures k in ExtendAll(dest, sources) && ExtendAll(dest, sources)[k] == sources[i][k]
  {
    if i < |sources| - 1 {
      ExtendAllLastSourceWins(dest, sources[..|sources| - 1], k, i);
    }
  }

  /** Under `extend` the destination's value survives only when no source has the key. */
  lemma {:induction false} ExtendAllKeepsDest<V>(dest: map<string, V>, sources: seq<map<string, V>>, k: string)
    requires k in dest
    requires forall j :: 0 <= j < |sources| ==> k !in sources[j]
    ensures k in ExtendAll(dest, sources) && ExtendAll(dest, sources)[k] == dest[k]
  {
    if sources != [] {
      ExtendAllKeepsDest(dest, sources[..|sources| - 1], k);
    }
  }

  /**
   * The properties the sources contribute.  A source that is the destination
   * object itself contributes nothing: merging an object into itself leaves
   * it as it is.
   */
  function Contributions<V>(destination: Dict?<V>, sources: seq<Dict<V>>): (r: seq<map<string, V>>)
    reads sources
    ensures |r| == |sources|
  {
    seq(|sources|, i requires 0 <= i < |sources| reads sources =>
      if sources[i] == destination then map[] else sources[i].props)
  }

  /** `_withDefaults`: copy each property of `source` that `destination` lacks. */
  method WithDefaultsFrom<V>(destination: Dict<V>, source: Dict<V>)
    modifies destination
    ensures destination.props == Defaults(old(destination.props), old(source.props))
  {
    var src := source.props;
    var pending := src.Keys;
    ghost var start := destination.props;
    while pending != {}
      invariant pending <= src.Keys
      invariant destination.props == Defaults(start, map k | k in src && k !in pending :: src[k])
      decreases pending
    {
      var key :| key in pending;
      if key !in destination.props {
        destination.props := destination.props[key := src[key]];
      }
      pending := pending - {key};
    }
    assert (map k | k in src && k !in pending :: src[k]) == src;
  }

  /** `_extend`: copy every property of `source` into `destination`. */
  method ExtendFrom<V>(destination: Dict<V>, source: Dict<V>)
    modifies destination
    ensures destination.props == Extend(old(destination.props), old(source.props))
  {
    var src := source.props;
    var pending := src.Keys;
    ghost var start := destination.props;
    while pending != {}
      invariant pending <= src.Keys
      invariant destination.props == Extend(start, map k | k in src && k !in pending :: src[k])
      decreases pending
    {
      var key :| key in pending;
      destination.props := destination.props[key := src[key]];
      pending := pending - {key};
    }
    assert (map k | k in src && k !in pending :: src[k]) == src;
  }

  /**
   * `withDefaults(destination, ...sources)`: a missing destination is replaced
   * by a new empty object; the merged destination is returned.
   */
  method WithDefaults<V>(destination: Dict?<V>, sources: seq<Dict<V>>) returns (r: Dict<V>)
    modifies destination
    ensures destination != null ==> r == destination
    ensures destination == null ==> fresh(r)
    ensures r.props == DefaultsAll(if destination == null then map[] else old(destination.props),
                                   old(Contributions(destination, sources)))
  {
    ghost var contributions := Contributions(destination, sources);
    if destination == null {
      r := new Dict(map[]);
    } else {
      r := destination;
    }
    ghost var start := r.props;
    var i := 0;
    while i < |sources|
      invariant 0 <= i <= |sources|
      invariant r.props == DefaultsAll(start, contributions[..i])
      invariant forall j :: 0 <= j < |sources| && sources[j] != r ==> sources[j].props == contributions[j]
    {
      ghost var before := r.props;
      WithDefaultsFrom(r, sources[i]);
      if sources[i] == r {
        assert Defaults(before, before) == Defaults(before, map[]);
      }
      assert contributions[..i + 1][..i] == contributions[..i];
      i := i + 1;
    }
    assert contributions[..|sources|] == contributions;
  }

  /**
   * `extend(destination, ...sources)`: a missing destination is replaced by a
   * new empty object; the extended destination is returned.
   */
  method ExtendWith<V>(destination: Dict?<V>, sources: seq<Dict<V>>) returns (r: Dict<V>)
    modifies destination
    ensures destination != null ==> r == destination
    ensures destination == null ==> fresh(r)
    ensures r.props == ExtendAll(if destination == null then map[] else old(destination.props),
                                 old(Contributions(destination, sources)))
  {
    ghost var contributions := Contributions(destination, sources);
    if destination == null {
      r := new Dict(map[]);
    } else {
      r := destination;
    }
    ghost var start := r.props;
    var i := 0;
    while i < |sources|
      invariant 0 <= i <= |sources|
      invariant r.props == ExtendAll(start, contributions[..i])
      invariant forall j :: 0 <= j < |sources| && sources[j] != r ==> sources[j].props == contributions[j]
    {
      ghost var before := r.props;
      ExtendFrom(r, sources[i]);
      if sources[i] == r {
        assert Extend(before, before) == Extend(before, map[]);
      }
      assert contributions[..i + 1][..i] == contributions[..i];
      i := i + 1;
    }
    assert contributions[..|sources|] == contributions;
  }
}
