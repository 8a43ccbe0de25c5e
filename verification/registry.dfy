/** `OptionSet`: the registry of options, indexed by short and by long
    synonym. An option is known by its handle, its position in `options`. */
module Registry {
  import opened Wrappers
  import opened Descriptors

  datatype OptionSet = OptionSet(
    options: seq<OptionDescriptor>,
    byShort: map<char, nat>,
    byLong: map<string, nat>,
    mandatory: seq<nat>)

  const EmptySet: OptionSet := OptionSet([], map[], map[], [])

  /** An option needs at least one short or long synonym. */
  predicate Named(d: OptionDescriptor)
  {
    |d.shortSynonyms| > 0 || |d.longSynonyms| > 0
  }

  /** `index` sends each key to the one position whose name list holds it. */
  predicate IndexExact<K>(index: map<K, nat>, names: seq<seq<K>>)
  {
    && (forall k :: k in index ==> index[k] < |names| && k in names[index[k]])
    && (forall h, k :: 0 <= h < |names| && k in names[h] ==> k in index && index[k] == h)
  }

  function ShortNames(options: seq<OptionDescriptor>): (names: seq<seq<char>>)
    ensures |names| == |options|
    ensures forall h :: 0 <= h < |options| ==> names[h] == options[h].shortSynonyms
  {
    seq(|options|, h requires 0 <= h < |options| => options[h].shortSynonyms)
  }

  function LongNames(options: seq<OptionDescriptor>): (names: seq<seq<string>>)
    ensures |names| == |options|
    ensures forall h :: 0 <= h < |options| ==> names[h] == options[h].longSynonyms
  {
    seq(|options|, h requires 0 <= h < |options| => options[h].longSynonyms)
  }

  /** Each index maps exactly the synonyms its option declares, so no
      synonym names two options; every option is named; `mandatory` lists
      exactly the mandatory options. */
  predicate Valid(r: OptionSet)
  {
    && IndexExact(r.byShort, ShortNames(r.options))
    && IndexExact(r.byLong, LongNames(r.options))
    && (forall h :: 0 <= h < |r.options| ==> Named(r.options[h]))
    && (forall i :: 0 <= i < |r.mandatory| ==> r.mandatory[i] < |r.options|)
    && (forall h :: 0 <= h < |r.options| ==> (r.options[h].mandatory <==> h in r.mandatory))
  }

  /** `Find(char)`: the option registered under a short synonym, or null. */
  function FindShort(r: OptionSet, c: char): (found: Option<nat>)
    requires Valid(r)
    ensures found.Some? <==> exists h :: 0 <= h < |r.options| && c in r.options[h].shortSynonyms
    ensures found.Some? ==> found.value < |r.options| && c in r.options[found.value].shortSynonyms
  {
    if c in r.byShort then Some(r.byShort[c]) else None
  }

  /** `Find(string)`: the option registered under a long synonym, or null. */
  function FindLong(r: OptionSet, n: string): (found: Option<nat>)
    requires Valid(r)
    ensures found.Some? <==> exists h :: 0 <= h < |r.options| && n in r.options[h].longSynonyms
    ensures found.Some? ==> found.value < |r.options| && n in r.options[found.value].longSynonyms
  {
    if n in r.byLong then Some(r.byLong[n]) else None
  }

  datatype Added = Added(ok: bool, registry: OptionSet)

  /** The registry with `d` appended under the next handle. */
  function Register(r: OptionSet, d: OptionDescriptor): OptionSet
  {
    var h := |r.options|;
    OptionSet(
      r.options + [d],
      r.byShort + map c | c in d.shortSynonyms :: h,
      r.byLong + map n | n in d.longSynonyms :: h,
      if d.mandatory then r.mandatory + [h] else r.mandatory)
  }

  /** Adding a list of new keys at the next position keeps an index exact. */
  lemma ExtendIndex<K>(index: map<K, nat>, names: seq<seq<K>>, added: seq<K>)
    requires IndexExact(index, names)
    requires forall k :: k in added ==> k !in index
    ensures IndexExact(index + map k | k in added :: |names|, names + [added])
  {
    var index' := index + map k | k in added :: |names|;
    var names' := names + [added];
    forall k | k in index'
      ensures index'[k] < |names'| && k in names'[index'[k]]
    {
      if k !in added {
        assert index'[k] == index[k];
      }
    }
    forall h, k | 0 <= h < |names'| && k in names'[h]
      ensures k in index' && index'[k] == h
    {
      if h < |names| {
        assert k in names[h];
      }
    }
  }

  /** Registering a named option whose synonyms are all free keeps the registry valid. */
  lemma RegisterValid(r: OptionSet, d: OptionDescriptor)
    requires Valid(r) && Named(d)
    requires forall c :: c in d.shortSynonyms ==> c !in r.byShort
    requires forall n :: n in d.longSynonyms ==> n !in r.byLong
    ensures Valid(Register(r, d))
  {
    var r' := Register(r, d);
    assert ShortNames(r'.options) == ShortNames(r.options) + [d.shortSynonyms];
    assert LongNames(r'.options) == LongNames(r.options) + [d.longSynonyms];
    ExtendIndex(r.byShort, ShortNames(r.options), d.shortSynonyms);
    ExtendIndex(r.byLong, LongNames(r.options), d.longSynonyms);
    assert forall g :: 0 <= g < |r.options| ==> r'.options[g] == r.options[g];
  }

  /** `Add`: rejects a nameless option and one sharing any short or long
      synonym with a registered option, leaving the registry as it was;
      otherwise registers it under the next handle. */
  function Add(r: OptionSet, d: OptionDescriptor): (res: Added)
    requires Valid(r)
    ensures Valid(res.registry)
    ensures res.ok <==>
      && Named(d)
      && (forall c :: c in d.shortSynonyms ==> FindShort(r, c).None?)
      && (forall n :: n in d.longSynonyms ==> FindLong(r, n).None?)
    ensures !res.ok ==> res.registry == r
    ensures res.ok ==> res.registry.options == r.options + [d]
  {
    if !Named(d)
       || (exists c :: c in d.shortSynonyms && c in r.byShort)
       || (exists n :: n in d.longSynonyms && n in r.byLong)
    then Added(false, r)
    else
      RegisterValid(r, d);
      Added(true, Register(r, d))
  }

  /** Distinct registered options never share a synonym. */
  lemma SynonymsUnique(r: OptionSet, g: nat, h: nat)
    requires Valid(r) && g < |r.options| && h < |r.options| && g != h
    ensures forall c :: c in r.options[g].shortSynonyms ==> c !in r.options[h].shortSynonyms
    ensures forall n :: n in r.options[g].longSynonyms ==> n !in r.options[h].longSynonyms
  {
    var shorts := ShortNames(r.options);
    var longs := LongNames(r.options);
    assert shorts[g] == r.options[g].shortSynonyms && shorts[h] == r.options[h].shortSynonyms;
    assert longs[g] == r.options[g].longSynonyms && longs[h] == r.options[h].longSynonyms;
    forall c | c in shorts[g] ensures c !in shorts[h] {
      assert r.byShort[c] == g;
    }
    forall n | n in longs[g] ensures n !in longs[h] {
      assert r.byLong[n] == g;
    }
  }

  /** After a successful `Add` the new option is found under each of its
      synonyms, and every other lookup answers as before. */
  lemma AddThenFind(r: OptionSet, d: OptionDescriptor, c: char, n: string)
    requires Valid(r) && Add(r, d).ok
    ensures var r' := Add(r, d).registry;
            && FindShort(r', c) == (if c in d.shortSynonyms then Some(|r.options|) else FindShort(r, c))
            && FindLong(r', n) == (if n in d.longSynonyms then Some(|r.options|) else FindLong(r, n))
  {
    var r' := Add(r, d).registry;
    assert r' == Register(r, d);
    if c !in d.shortSynonyms {
      assert (c in r'.byShort) == (c in r.byShort);
      if c in r.byShort {
        assert r'.byShort[c] == r.byShort[c];
      }
    }
    if n !in d.longSynonyms {
      assert (n in r'.byLong) == (n in r.byLong);
      if n in r.byLong {
        assert r'.byLong[n] == r.byLong[n];
      }
    }
  }
}
