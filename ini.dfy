/**
 * The INI documents the manager reads and writes (the registry `config.ini`,
 * each mod's `mod.ini`, the game's `DefaultEngine.ini`) are rust-ini values.
 * The crate is not part of this model; a document is modelled as an ordered
 * list of sections, each an ordered list of (key, value) pairs, and the
 * crate operations the manager uses are given the following meaning:
 *   - `Set` replaces the value of a key in place (dropping any later pairs
 *     with that key) or appends the pair when the key is absent;
 *   - `Append` pushes a pair; `RemoveAll` drops every pair with that key;
 *   - `Get` is the first value of a key, `GetAll` all of them in order;
 *   - `SectionOf` / `UpdateFirst` read / replace the first section of a name
 *     (`section`, `section_mut`); `Delete` drops every section of a name;
 *   - `WithSectionSet` is `with_section(name).set(key, value)`: a `Set` in
 *     the first section of that name, or a new section at the end.
 * Parsing and printing text stay abstract.
 */
module Ini {
  import opened Wrappers

  datatype Pair = Pair(key: string, value: string)
  datatype Section = Section(name: string, props: seq<Pair>)
  type Doc = seq<Section>

  // ---------------------------------------------------------------------
  // Properties of one section
  // ---------------------------------------------------------------------

  predicate HasKey(props: seq<Pair>, key: string)
  {
    exists i :: 0 <= i < |props| && props[i].key == key
  }

  /** Every value stored under `key`, in document order. */
  function GetAll(props: seq<Pair>, key: string): (r: seq<string>)
    ensures |r| <= |props|
    ensures r == [] <==> !HasKey(props, key)
    ensures forall v :: v in r <==> Pair(key, v) in props
  {
    if props == [] then []
    else
      var rest := GetAll(props[1..], key);
      assert forall i :: 0 < i < |props| ==> props[i] == props[1..][i - 1];
      if props[0].key == key then [props[0].value] + rest else rest
  }

  /** The first value stored under `key`. */
  function Get(props: seq<Pair>, key: string): (r: Option<string>)
    ensures r.None? <==> !HasKey(props, key)
    ensures r.Some? ==> r.value == GetAll(props, key)[0]
  {
    if props == [] then None
    else if props[0].key == key then Some(props[0].value)
    else
      assert forall i :: 0 < i < |props| ==> props[i] == props[1..][i - 1];
      Get(props[1..], key)
  }

  lemma {:induction false} GetAllConcat(a: seq<Pair>, b: seq<Pair>, key: string)
    ensures GetAll(a + b, key) == GetAll(a, key) + GetAll(b, key)
  {
    if a == [] {
      assert a + b == b;
    } else {
      assert (a + b)[0] == a[0];
      assert (a + b)[1..] == a[1..] + b;
      GetAllConcat(a[1..], b, key);
    }
  }

  /** Drops every pair with `key`. */
  function RemoveAll(props: seq<Pair>, key: string): (r: seq<Pair>)
    ensures GetAll(r, key) == []
    ensures forall k :: k != key ==> GetAll(r, k) == GetAll(props, k)
    ensures forall p :: p in r <==> p in props && p.key != key
  {
    if props == [] then []
    else
      var rest := RemoveAll(props[1..], key);
      assert forall p :: p in props <==> p == props[0] || p in props[1..];
      if props[0].key == key then rest
      else
        assert [props[0]] + rest == [props[0]] + [] + rest;
        GetAllConcat([props[0]], rest, key);
        forall k | k != key ensures GetAll([props[0]] + rest, k) == GetAll(props, k) {
          GetAllConcat([props[0]], rest, k);
          GetAllConcat([props[0]], props[1..], k);
          assert props == [props[0]] + props[1..];
        }
        [props[0]] + rest
  }

  /** Pushes a pair at the end, whether or not the key is present. */
  function Append(props: seq<Pair>, key: string, value: string): (r: seq<Pair>)
    ensures GetAll(r, key) == GetAll(props, key) + [value]
    ensures forall k :: k != key ==> GetAll(r, k) == GetAll(props, k)
  {
    GetAllConcat(props, [Pair(key, value)], key);
    forall k | k != key ensures GetAll(props + [Pair(key, value)], k) == GetAll(props, k) {
      GetAllConcat(props, [Pair(key, value)], k);
    }
    props + [Pair(key, value)]
  }

  /** `Set` on a section that holds `key`: the first such pair takes the value, later ones go. */
  function SetPresent(props: seq<Pair>, key: string, value: string): (r: seq<Pair>)
    requires HasKey(props, key)
    ensures GetAll(r, key) == [value]
    ensures forall k :: k != key ==> GetAll(r, k) == GetAll(props, k)
  {
    assert props != [];
    GetAllConcat([props[0]], props[1..], key);
    assert props == [props[0]] + props[1..];
    if props[0].key == key then
      var r := [Pair(key, value)] + RemoveAll(props[1..], key);
      GetAllConcat([Pair(key, value)], RemoveAll(props[1..], key), key);
      forall k | k != key ensures GetAll(r, k) == GetAll(props, k) {
        GetAllConcat([Pair(key, value)], RemoveAll(props[1..], key), k);
        GetAllConcat([props[0]], props[1..], k);
      }
      r
    else
      assert HasKey(props[1..], key) by {
        var i :| 0 <= i < |props| && props[i].key == key;
        assert props[1..][i - 1].key == key;
      }
      var r := [props[0]] + SetPresent(props[1..], key, value);
      GetAllConcat([props[0]], SetPresent(props[1..], key, value), key);
      forall k | k != key ensures GetAll(r, k) == GetAll(props, k) {
        GetAllConcat([props[0]], SetPresent(props[1..], key, value), k);
        GetAllConcat([props[0]], props[1..], k);
      }
      r
  }

  /** rust-ini's `set`: replace the key's value(s), or append the key. */
  function Set(props: seq<Pair>, key: string, value: string): (r: seq<Pair>)
    ensures GetAll(r, key) == [value]
    ensures Get(r, key) == Some(value)
    ensures forall k :: k != key ==> GetAll(r, k) == GetAll(props, k)
    ensures forall k :: k != key ==> Get(r, k) == Get(props, k)
    ensures !HasKey(props, key) ==> r == props + [Pair(key, value)]
  {
    if HasKey(props, key) then SetPresent(props, key, value) else Append(props, key, value)
  }

  // ---------------------------------------------------------------------
  // Sections of a document
  // ---------------------------------------------------------------------

  predicate HasSection(doc: Doc, name: string)
  {
    exists i :: 0 <= i < |doc| && doc[i].name == name
  }

  /** The first section called `name` (rust-ini's `section`). */
  function SectionOf(doc: Doc, name: string): (r: Option<seq<Pair>>)
    ensures r.Some? <==> HasSection(doc, name)
    ensures r.Some? ==> Section(name, r.value) in doc
  {
    if doc == [] then None
    else if doc[0].name == name then Some(doc[0].props)
    else
      assert forall i :: 0 < i < |doc| ==> doc[i] == doc[1..][i - 1];
      SectionOf(doc[1..], name)
  }

  /** The properties of the first section called `name`, or none. */
  function PropsOf(doc: Doc, name: string): seq<Pair>
  {
    SectionOf(doc, name).GetOr([])
  }

  lemma {:induction false} SectionOfAppend(doc: Doc, s: Section, name: string)
    ensures SectionOf(doc + [s], name) ==
            if HasSection(doc, name) then SectionOf(doc, name)
            else if s.name == name then Some(s.props) else None
  {
    if doc != [] {
      assert (doc + [s])[1..] == doc[1..] + [s];
      SectionOfAppend(doc[1..], s, name);
    }
  }

  /** Replaces the first section called `name`, if any (a write through `section_mut`). */
  function UpdateFirst(doc: Doc, name: string, props: seq<Pair>): (r: Doc)
    ensures |r| == |doc|
    ensures SectionOf(r, name) == if HasSection(doc, name) then Some(props) else None
    ensures forall n :: n != name ==> SectionOf(r, n) == SectionOf(doc, n)
  {
    if doc == [] then []
    else if doc[0].name == name then [Section(name, props)] + doc[1..]
    else
      assert forall i :: 0 < i < |doc| ==> doc[i] == doc[1..][i - 1];
      var r := [doc[0]] + UpdateFirst(doc[1..], name, props);
      assert r[1..] == UpdateFirst(doc[1..], name, props);
      r
  }

  /** rust-ini's `delete`: every section called `name` goes. */
  function Delete(doc: Doc, name: string): (r: Doc)
    ensures !HasSection(r, name)
    ensures forall n :: n != name ==> SectionOf(r, n) == SectionOf(doc, n)
    ensures forall s :: s in r <==> s in doc && s.name != name
  {
    if doc == [] then []
    else
      assert forall i :: 0 < i < |doc| ==> doc[i] == doc[1..][i - 1];
      assert forall s :: s in doc <==> s == doc[0] || s in doc[1..];
      var rest := Delete(doc[1..], name);
      if doc[0].name == name then rest
      else
        var r := [doc[0]] + rest;
        assert r[1..] == rest;
        r
  }

  /** Replacing a section and then deleting its name is deleting the name. */
  lemma {:induction false} DeleteUpdateFirst(doc: Doc, name: string, props: seq<Pair>)
    ensures Delete(UpdateFirst(doc, name, props), name) == Delete(doc, name)
  {
    if doc != [] {
      var u := UpdateFirst(doc, name, props);
      if doc[0].name == name {
        assert u[1..] == doc[1..];
      } else {
        assert u[1..] == UpdateFirst(doc[1..], name, props);
        DeleteUpdateFirst(doc[1..], name, props);
      }
    }
  }

  /** A section of that name added at the end is deleted with the others. */
  lemma {:induction false} DeleteAppended(doc: Doc, s: Section)
    ensures Delete(doc + [s], s.name) == Delete(doc, s.name)
  {
    if doc == [] {
      assert ([] + [s])[1..] == [];
    } else {
      assert (doc + [s])[1..] == doc[1..] + [s];
      DeleteAppended(doc[1..], s);
    }
  }

  /** Whatever `with_section(name).set` did, deleting `name` afterwards undoes it. */
  lemma DeleteWithSectionSet(doc: Doc, name: string, key: string, value: string)
    ensures Delete(WithSectionSet(doc, name, key, value), name) == Delete(doc, name)
  {
    match SectionOf(doc, name)
    case Some(props) =>
      DeleteUpdateFirst(doc, name, Set(props, key, value));
    case None =>
      DeleteAppended(doc, Section(name, Set([], key, value)));
  }

  /** `with_section(Some(name)).set(key, value)`. */
  function WithSectionSet(doc: Doc, name: string, key: string, value: string): (r: Doc)
    ensures SectionOf(r, name) == Some(Set(PropsOf(doc, name), key, value))
    ensures forall n :: n != name ==> SectionOf(r, n) == SectionOf(doc, n)
  {
    match SectionOf(doc, name)
    case Some(props) => UpdateFirst(doc, name, Set(props, key, value))
    case None =>
      var r := doc + [Section(name, Set([], key, value))];
      SectionOfAppend(doc, Section(name, Set([], key, value)), name);
      forall n | n != name ensures SectionOf(r, n) == SectionOf(doc, n) {
        SectionOfAppend(doc, Section(name, Set([], key, value)), n);
      }
      r
  }

  /** Holds when no two pairs share a key. */
  predicate DistinctKeys(pairs: seq<Pair>)
  {
    forall i, j :: 0 <= i < j < |pairs| ==> pairs[i].key != pairs[j].key
  }

  /** `Set` of an absent key into the only section of a document appends the pair there. */
  lemma SetIntoSingleSection(name: string, props: seq<Pair>, key: string, value: string)
    requires !HasKey(props, key)
    ensures WithSectionSet([Section(name, props)], name, key, value) == [Section(name, props + [Pair(key, value)])]
  {
    assert SectionOf([Section(name, props)], name) == Some(props);
  }

  /** A `with_section(Some(name))` builder followed by one `set` per pair, in order. */
  function SetPairs(doc: Doc, name: string, pairs: seq<Pair>): (r: Doc)
    ensures HasSection(r, name) <==> HasSection(doc, name) || pairs != []
    ensures forall n :: n != name ==> SectionOf(r, n) == SectionOf(doc, n)
    decreases |pairs|
  {
    if pairs == [] then doc
    else
      var last := pairs[|pairs| - 1];
      WithSectionSet(SetPairs(doc, name, pairs[..|pairs| - 1]), name, last.key, last.value)
  }

  /** Dropping the last pair keeps keys distinct, and the last key is not among the others. */
  lemma DistinctKeysFront(pairs: seq<Pair>)
    requires pairs != [] && DistinctKeys(pairs)
    ensures DistinctKeys(pairs[..|pairs| - 1])
    ensures !HasKey(pairs[..|pairs| - 1], pairs[|pairs| - 1].key)
  {
    var front := pairs[..|pairs| - 1];
    forall i | 0 <= i < |front| ensures front[i].key != pairs[|pairs| - 1].key {
      assert front[i] == pairs[i];
    }
  }

  /** `with_section(Some(name)).set(key, value)` on an empty document. */
  lemma SetIntoEmpty(name: string, key: string, value: string)
    ensures WithSectionSet([], name, key, value) == [Section(name, [Pair(key, value)])]
  {
    assert Set([], key, value) == [Pair(key, value)];
  }

  /** Setting pairwise distinct keys into an empty document builds one section holding them in order. */
  lemma {:induction false} SetPairsFresh(name: string, pairs: seq<Pair>)
    requires pairs != [] && DistinctKeys(pairs)
    ensures SetPairs([], name, pairs) == [Section(name, pairs)]
    decreases |pairs|
  {
    var front := pairs[..|pairs| - 1];
    var last := pairs[|pairs| - 1];
    assert front + [last] == pairs;
    DistinctKeysFront(pairs);
    if front == [] {
      SetIntoEmpty(name, last.key, last.value);
    } else {
      SetPairsFresh(name, front);
      SetIntoSingleSection(name, front, last.key, last.value);
    }
  }

  /** One more `set` after a run of them. */
  lemma SetPairsSnoc(doc: Doc, name: string, pairs: seq<Pair>, p: Pair)
    ensures SetPairs(doc, name, pairs + [p]) == WithSectionSet(SetPairs(doc, name, pairs), name, p.key, p.value)
  {
    assert (pairs + [p])[..|pairs|] == pairs;
  }

  /** After `set`, the keys present are the old ones and the one set. */
  lemma SetHasKey(props: seq<Pair>, key: string, value: string, k: string)
    ensures HasKey(Set(props, key, value), k) <==> k == key || HasKey(props, k)
  {
    if k != key {
      assert GetAll(Set(props, key, value), k) == GetAll(props, k);
    }
  }

  /** Setting distinct keys into a document without that section leaves exactly those pairs there. */
  lemma {:induction false} SetPairsSection(doc: Doc, name: string, pairs: seq<Pair>)
    requires !HasSection(doc, name) && pairs != [] && DistinctKeys(pairs)
    ensures SectionOf(SetPairs(doc, name, pairs), name) == Some(pairs)
    decreases |pairs|
  {
    var front := pairs[..|pairs| - 1];
    var last := pairs[|pairs| - 1];
    assert front + [last] == pairs;
    DistinctKeysFront(pairs);
    if front == [] {
      assert Set([], last.key, last.value) == [last];
    } else {
      SetPairsSection(doc, name, front);
    }
  }

  /** The keys of a list are those of all but its last pair, and the last one's. */
  lemma HasKeyLast(pairs: seq<Pair>, k: string)
    requires pairs != []
    ensures HasKey(pairs, k) <==> HasKey(pairs[..|pairs| - 1], k) || pairs[|pairs| - 1].key == k
  {
    var front := pairs[..|pairs| - 1];
    if HasKey(pairs, k) {
      var i :| 0 <= i < |pairs| && pairs[i].key == k;
      if i < |front| {
        assert front[i] == pairs[i];
      }
    }
    if HasKey(front, k) {
      var i :| 0 <= i < |front| && front[i].key == k;
      assert pairs[i] == front[i];
    }
  }

  /** Whatever the keys, after a run of sets the section holds the keys it held before and those set. */
  lemma {:induction false} SetPairsKeys(doc: Doc, name: string, pairs: seq<Pair>, k: string)
    ensures HasKey(PropsOf(SetPairs(doc, name, pairs), name), k) <==> HasKey(PropsOf(doc, name), k) || HasKey(pairs, k)
    decreases |pairs|
  {
    if pairs != [] {
      var front := pairs[..|pairs| - 1];
      var last := pairs[|pairs| - 1];
      var before := SetPairs(doc, name, front);
      assert SetPairs(doc, name, pairs) == WithSectionSet(before, name, last.key, last.value);
      assert PropsOf(SetPairs(doc, name, pairs), name) == Set(PropsOf(before, name), last.key, last.value);
      SetPairsKeys(doc, name, front, k);
      SetHasKey(PropsOf(before, name), last.key, last.value, k);
      HasKeyLast(pairs, k);
    }
  }

  /** With distinct keys, every key reads back its own value. */
  lemma {:induction false} GetDistinct(pairs: seq<Pair>, i: nat)
    requires DistinctKeys(pairs) && i < |pairs|
    ensures Get(pairs, pairs[i].key) == Some(pairs[i].value)
    decreases |pairs|
  {
    if i > 0 {
      var rest := pairs[1..];
      assert DistinctKeys(rest) by {
        forall a, b | 0 <= a < b < |rest| ensures rest[a].key != rest[b].key {
          assert rest[a] == pairs[a + 1] && rest[b] == pairs[b + 1];
        }
      }
      assert rest[i - 1] == pairs[i];
      GetDistinct(rest, i - 1);
    }
  }
}
