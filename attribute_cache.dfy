/**
 * The attribute cache of AdInterface as values: what loading an entry puts in
 * the cache, how group membership patches it, and the three phases of
 * update_cache after a delete, move or rename (rewrite of the cached keys,
 * dn_changed notifications sorted by depth, rewrite of the cached values).
 * The class AdInterface (module AdSession) performs these steps in place and
 * is proved to compute exactly these values.
 */
module AttributeCache {
  import opened QtText

  type Dn = string

  /** attribute name -> values, in the order the directory returned them */
  type AttributeMap = map<string, seq<string>>

  /** The client's success code (active_directory.h). */
  const AD_SUCCESS: int := 1

  /**
   * The client's answer to "all attributes of this entry": either the result
   * array {key, value, key, value, ...} without its NULL terminator, or no
   * array, together with the client's error code and message.
   */
  datatype AttributeReply =
    | Entries(raw: seq<string>)
    | NoEntries(code: int, message: string)

  /** The signals AdInterface emits in the modelled operations, in emission order. */
  datatype Event =
    | LoadAttributesComplete(dn: Dn)
    | LoadAttributesFailed(dn: Dn, error: string)
    | AttributesChanged(dn: Dn)
    | DnChanged(oldDn: Dn, newDn: Dn)
    | SetAttributeComplete(dn: Dn, attribute: string, oldValue: string, value: string)
    | SetAttributeFailed(dn: Dn, attribute: string, oldValue: string, value: string, error: string)
    | DeleteEntryComplete(dn: Dn)
    | DeleteEntryFailed(dn: Dn, error: string)
    | MoveComplete(dn: Dn, newContainer: Dn, newDn: Dn)
    | MoveFailed(dn: Dn, newContainer: Dn, newDn: Dn, error: string)
    | RenameComplete(dn: Dn, newName: string, newDn: Dn)
    | RenameFailed(dn: Dn, newName: string, newDn: Dn, error: string)
    | AddUserToGroupComplete(groupDn: Dn, userDn: Dn)
    | AddUserToGroupFailed(groupDn: Dn, userDn: Dn, error: string)
    | GroupRemoveUserComplete(groupDn: Dn, userDn: Dn)
    | GroupRemoveUserFailed(groupDn: Dn, userDn: Dn, error: string)

  /** attributes_map and attributes_loaded. */
  datatype Cache = Cache(attributes: map<Dn, AttributeMap>, loaded: set<Dn>)

  /** Every entry marked loaded has a cached attribute map. */
  predicate Consistent(c: Cache)
  {
    c.loaded <= c.attributes.Keys
  }

  // ---------------------------------------------------------------- loading

  /**
   * The number of key/value pairs the parse loop of load_attributes reads: it
   * continues while element i + 2 exists, so the last pair is never read.
   * (For arrays shorter than two elements, or of odd length, the loop tests
   * an element past the terminator; the model reads no pair from the former
   * and stops after the last full pair of the latter.)
   */
  function PairCount(raw: seq<string>): (n: nat)
    ensures 2 * n <= |raw|
    ensures |raw| >= 2 ==> 2 * n + 2 >= |raw|
  {
    if |raw| >= 2 then (|raw| - 1) / 2 else 0
  }

  /** values[attribute] += [value], creating the list when missing. */
  function AppendValue(m: AttributeMap, attribute: string, value: string): (r: AttributeMap)
    ensures r.Keys == m.Keys + {attribute}
  {
    m[attribute := ValuesOf(m, attribute) + [value]]
  }

  /** The value list of an attribute, empty when absent (QMap::value on a missing key). */
  function ValuesOf(m: AttributeMap, attribute: string): seq<string>
  {
    if attribute in m then m[attribute] else []
  }

  /** The attribute map built from the first n pairs of the raw array, pair by pair. */
  function Grouped(raw: seq<string>, n: nat): AttributeMap
    requires 2 * n <= |raw|
  {
    if n == 0 then map[]
    else AppendValue(Grouped(raw, n - 1), raw[2 * n - 2], raw[2 * n - 1])
  }

  /** The attribute map load_attributes stores for a raw result array. */
  function ParsedAttributes(raw: seq<string>): AttributeMap
  {
    Grouped(raw, PairCount(raw))
  }

  /** Reference reading: the values paired with one attribute among the first n pairs, in order. */
  function PairedValues(raw: seq<string>, n: nat, attribute: string): seq<string>
    requires 2 * n <= |raw|
  {
    if n == 0 then []
    else PairedValues(raw, n - 1, attribute) + (if raw[2 * n - 2] == attribute then [raw[2 * n - 1]] else [])
  }

  /**
   * Grouping pair by pair gives, for every attribute, exactly the values paired
   * with it in the array and in array order; an attribute is present iff it
   * has at least one value.
   */
  lemma {:induction false} GroupedValues(raw: seq<string>, n: nat, attribute: string)
    requires 2 * n <= |raw|
    ensures attribute in Grouped(raw, n) <==> PairedValues(raw, n, attribute) != []
    ensures ValuesOf(Grouped(raw, n), attribute) == PairedValues(raw, n, attribute)
  {
    if n > 0 {
      GroupedValues(raw, n - 1, attribute);
    }
  }

  /** An even-length array never has its final key/value pair read. */
  lemma LastPairNeverRead(raw: seq<string>)
    requires |raw| >= 2 && |raw| % 2 == 0
    ensures 2 * PairCount(raw) == |raw| - 2
  {
  }

  /** In particular, an entry with a single attribute value loads as an empty map. */
  lemma SingleValueEntryLoadsEmpty(attribute: string, value: string)
    ensures ParsedAttributes([attribute, value]) == map[]
  {
  }

  /** load_attributes: a result array replaces the entry and marks it loaded; no array changes nothing. */
  function Load(c: Cache, dn: Dn, reply: AttributeReply): (r: Cache)
    ensures reply.Entries? ==> (r.attributes == c.attributes[dn := ParsedAttributes(reply.raw)]
                                && r.loaded == c.loaded + {dn})
    ensures reply.NoEntries? ==> r == c
    ensures Consistent(c) ==> Consistent(r)
  {
    match reply
    case Entries(raw) => Cache(c.attributes[dn := ParsedAttributes(raw)], c.loaded + {dn})
    case NoEntries(_, _) => c
  }

  /** The signals of load_attributes: failure is reported only for a code other than AD_SUCCESS. */
  function LoadEvents(dn: Dn, reply: AttributeReply): (events: seq<Event>)
    ensures reply.Entries? ==> events == [LoadAttributesComplete(dn)]
    ensures reply.NoEntries? && reply.code == AD_SUCCESS ==> events == []
    ensures reply.NoEntries? && reply.code != AD_SUCCESS ==> events == [LoadAttributesFailed(dn, reply.message)]
  {
    match reply
    case Entries(_) => [LoadAttributesComplete(dn)]
    case NoEntries(code, message) => if code != AD_SUCCESS then [LoadAttributesFailed(dn, message)] else []
  }

  /** The cached map of an entry, empty when not cached. */
  function Lookup(c: Cache, dn: Dn): AttributeMap
  {
    if dn in c.attributes then c.attributes[dn] else map[]
  }

  /** The cache after get_attributes: the empty DN and loaded entries are left alone. */
  function AfterGet(c: Cache, dn: Dn, reply: AttributeReply): (r: Cache)
    ensures dn == "" || dn in c.loaded ==> r == c
    ensures dn != "" && dn !in c.loaded ==> r == Load(c, dn, reply)
  {
    if dn == "" || dn in c.loaded then c else Load(c, dn, reply)
  }

  /** The signals of get_attributes. */
  function GetEvents(c: Cache, dn: Dn, reply: AttributeReply): seq<Event>
  {
    if dn == "" || dn in c.loaded then [] else LoadEvents(dn, reply)
  }

  /** The map get_attributes returns. */
  function GetResult(c: Cache, dn: Dn, reply: AttributeReply): AttributeMap
  {
    if dn == "" then map[] else Lookup(AfterGet(c, dn, reply), dn)
  }

  /**
   * An entry is loaded at most once: once get_attributes has loaded it, a
   * second get_attributes neither loads nor signals, whatever the directory
   * would answer, and returns the same map.
   */
  lemma GetLoadsOnce(c: Cache, dn: Dn, reply: AttributeReply, later: AttributeReply)
    requires dn != "" && reply.Entries?
    ensures AfterGet(AfterGet(c, dn, reply), dn, later) == AfterGet(c, dn, reply)
    ensures GetEvents(AfterGet(c, dn, reply), dn, later) == []
    ensures GetResult(AfterGet(c, dn, reply), dn, later) == GetResult(c, dn, reply)
            == (if dn in c.loaded then Lookup(c, dn) else ParsedAttributes(reply.raw))
  {
  }

  /**
   * Asking again with the same directory answer changes nothing more and gives
   * the same map: a failed load leaves the entry as it was, a successful one
   * marks it loaded.
   */
  lemma GetStable(c: Cache, dn: Dn, reply: AttributeReply)
    ensures AfterGet(AfterGet(c, dn, reply), dn, reply) == AfterGet(c, dn, reply)
    ensures GetResult(AfterGet(c, dn, reply), dn, reply) == GetResult(c, dn, reply)
  {
  }

  /** get_attribute: the first value, or "" when there is none. */
  function FirstValue(values: seq<string>): (r: string)
    ensures |values| > 0 ==> r == values[0]
    ensures |values| == 0 ==> r == ""
  {
    if |values| > 0 then values[0] else ""
  }

  // ------------------------------------------------------- membership patches

  /** add_attribute_internal: append the value to a loaded entry's attribute. */
  function AddValue(c: Cache, dn: Dn, attribute: string, value: string): (r: Cache)
    ensures Consistent(c) ==> Consistent(r)
    ensures dn !in c.loaded ==> r == c
    ensures dn in c.loaded ==> (
              r.loaded == c.loaded && r.attributes.Keys == c.attributes.Keys + {dn}
              && ValuesOf(r.attributes[dn], attribute) == ValuesOf(Lookup(c, dn), attribute) + [value]
              && (forall a :: a != attribute ==> ValuesOf(r.attributes[dn], a) == ValuesOf(Lookup(c, dn), a))
              && (forall d :: d in c.attributes && d != dn ==> r.attributes[d] == c.attributes[d]))
  {
    if dn in c.loaded then Cache(c.attributes[dn := AppendValue(Lookup(c, dn), attribute, value)], c.loaded)
    else c
  }

  /** add_attribute_internal signals exactly when the entry is loaded. */
  function AddEvents(c: Cache, dn: Dn): seq<Event>
  {
    if dn in c.loaded then [AttributesChanged(dn)] else []
  }

  /** QList::removeAt(indexOf(value)): the first equal value removed, if any. */
  function RemoveFirst(values: seq<string>, value: string): (r: seq<string>)
    ensures multiset(r) == multiset(values) - multiset{value}
    ensures |r| == if value in values then |values| - 1 else |values|
  {
    var i := IndexOf(values, value);
    if i == -1 then values
    else
      assert values == values[..i] + [value] + values[i + 1..];
      values[..i] + values[i + 1..]
  }

  /**
   * remove_attribute_internal on a loaded entry. The lookup goes through the
   * non-const QMap::operator[], so an attribute that was absent is left behind
   * with an empty value list.
   */
  function RemoveValue(c: Cache, dn: Dn, attribute: string, value: string): (r: Cache)
    ensures Consistent(c) ==> Consistent(r)
    ensures dn !in c.loaded ==> r == c
    ensures dn in c.loaded ==> (
              r.loaded == c.loaded
              && r.attributes == c.attributes[dn := Lookup(c, dn)[attribute := RemoveFirst(ValuesOf(Lookup(c, dn), attribute), value)]])
  {
    if dn in c.loaded then
      var m := Lookup(c, dn);
      Cache(c.attributes[dn := m[attribute := RemoveFirst(ValuesOf(m, attribute), value)]], c.loaded)
    else c
  }

  /** remove_attribute_internal signals only when a value was actually removed. */
  function RemoveEvents(c: Cache, dn: Dn, attribute: string, value: string): seq<Event>
  {
    if dn in c.loaded && value in ValuesOf(Lookup(c, dn), attribute) then [AttributesChanged(dn)] else []
  }

  /** Removing a value that was just added restores the cache, when the value was not there before. */
  lemma AddThenRemove(c: Cache, dn: Dn, attribute: string, value: string)
    requires Consistent(c) && dn in c.loaded && attribute in c.attributes[dn]
    requires value !in c.attributes[dn][attribute]
    ensures RemoveValue(AddValue(c, dn, attribute, value), dn, attribute, value) == c
  {
    var m := c.attributes[dn];
    var vs := m[attribute];
    RemoveAppended(vs, value);
    var added := AddValue(c, dn, attribute, value);
    assert Lookup(added, dn) == m[attribute := vs + [value]];
    assert m[attribute := vs + [value]][attribute := vs] == m;
    assert c.attributes[dn := m] == c.attributes;
  }

  /**
   * add_user_to_group followed by group_remove_user for the same pair restores
   * the cache, when both entries are loaded, both attributes are present and
   * neither value was there before.
   */
  lemma MembershipRoundTrip(c: Cache, groupDn: Dn, userDn: Dn)
    requires Consistent(c) && groupDn != userDn && groupDn in c.loaded && userDn in c.loaded
    requires "member" in c.attributes[groupDn] && userDn !in c.attributes[groupDn]["member"]
    requires "memberOf" in c.attributes[userDn] && groupDn !in c.attributes[userDn]["memberOf"]
    ensures var added := AddValue(AddValue(c, groupDn, "member", userDn), userDn, "memberOf", groupDn);
            RemoveValue(RemoveValue(added, groupDn, "member", userDn), userDn, "memberOf", groupDn) == c
  {
    var c1 := AddValue(c, groupDn, "member", userDn);
    AddRemoveCommute(c1, userDn, "memberOf", groupDn, groupDn, "member", userDn);
    AddThenRemove(c, groupDn, "member", userDn);
    AddThenRemove(c, userDn, "memberOf", groupDn);
  }

  /** Patches of two different entries commute. */
  lemma AddRemoveCommute(c: Cache, dn: Dn, attribute: string, value: string, other: Dn, otherAttribute: string, otherValue: string)
    requires dn != other
    ensures RemoveValue(AddValue(c, dn, attribute, value), other, otherAttribute, otherValue)
            == AddValue(RemoveValue(c, other, otherAttribute, otherValue), dn, attribute, value)
  {
    if dn in c.loaded && other in c.loaded {
      var added := AppendValue(Lookup(c, dn), attribute, value);
      var m := Lookup(c, other);
      var removed := m[otherAttribute := RemoveFirst(ValuesOf(m, otherAttribute), otherValue)];
      var c1 := Cache(c.attributes[dn := added], c.loaded);
      var c2 := Cache(c.attributes[other := removed], c.loaded);
      assert AddValue(c, dn, attribute, value) == c1;
      assert RemoveValue(c, other, otherAttribute, otherValue) == c2;
      assert Lookup(c1, other) == m;
      assert Lookup(c2, dn) == Lookup(c, dn);
      assert RemoveValue(c1, other, otherAttribute, otherValue) == Cache(c.attributes[dn := added][other := removed], c.loaded);
      assert AddValue(c2, dn, attribute, value) == Cache(c.attributes[other := removed][dn := added], c.loaded);
      UpdatesCommute(c.attributes, dn, added, other, removed);
    }
  }

  /** Updates of two different keys commute. */
  lemma UpdatesCommute<K, V>(m: map<K, V>, k: K, v: V, l: K, w: V)
    requires k != l
    ensures m[k := v][l := w] == m[l := w][k := v]
  {
  }

  lemma RemoveAppended(vs: seq<string>, value: string)
    requires value !in vs
    ensures RemoveFirst(vs + [value], value) == vs
  {
    IndexOfConcat(vs, [value], value);
    assert (vs + [value])[..|vs|] == vs;
    assert (vs + [value])[|vs| + 1..] == [];
  }

  // -------------------------------------------- update_cache, phase 1: keys

  /** update_cache treats a change to the empty DN, from a non-empty one, as a deletion. */
  predicate IsDeletion(oldDn: Dn, newDn: Dn)
  {
    oldDn != "" && newDn == ""
  }

  /** The DN a cached DN containing oldDn becomes. */
  function Substitute(dn: Dn, oldDn: Dn, newDn: Dn): Dn
  {
    ReplaceAll(dn, oldDn, newDn)
  }

  /** What the key loop has produced so far: the cache, dn_changes and updated_dns. */
  datatype KeyPass = KeyPass(cache: Cache, changes: seq<Dn>, updated: map<Dn, Dn>)

  /**
   * The cache after the affected key dn moves to u on move or rename:
   * attributes_map[updated_dn] = attributes_map[old_dn] goes through
   * operator[], which inserts an empty old_dn entry when there is none, and
   * the copy is old_dn's entry, not dn's.
   */
  function MoveKey(q: Cache, dn: Dn, u: Dn, oldDn: Dn): Cache
  {
    var withOld := if oldDn in q.attributes then q.attributes else q.attributes[oldDn := map[]];
    Cache(withOld[u := withOld[oldDn]] - {dn}, (q.loaded + {u}) - {dn})
  }

  /** One iteration of the key loop, for the cached key dn. */
  function RewriteKey(p: KeyPass, dn: Dn, oldDn: Dn, newDn: Dn): KeyPass
  {
    if !Contains(dn, oldDn) then p
    else
      var updatedDn := Substitute(dn, oldDn, newDn);
      var c := p.cache;
      var next :=
        if IsDeletion(oldDn, newDn) then Cache(c.attributes - {dn}, c.loaded - {dn})
        else MoveKey(c, dn, updatedDn, oldDn);
      if dn in p.changes then KeyPass(next, p.changes, p.updated)
      else KeyPass(next, p.changes + [dn], p.updated[dn := updatedDn])
  }

  /** The key loop over the keys in visiting order. */
  function RewriteKeys(c: Cache, visit: seq<Dn>, oldDn: Dn, newDn: Dn): KeyPass
  {
    if |visit| == 0 then KeyPass(c, [], map[])
    else RewriteKey(RewriteKeys(c, visit[..|visit| - 1], oldDn, newDn), visit[|visit| - 1], oldDn, newDn)
  }

  /** The visited keys that contain oldDn. */
  function Affected(visit: seq<Dn>, oldDn: Dn): set<Dn>
  {
    set k | k in visit && Contains(k, oldDn)
  }

  /** Their substituted forms. */
  function Substituted(visit: seq<Dn>, oldDn: Dn, newDn: Dn): set<Dn>
  {
    set k | k in visit && Contains(k, oldDn) :: Substitute(k, oldDn, newDn)
  }

  ghost predicate Distinct<T>(s: seq<T>)
  {
    forall i, j :: 0 <= i < j < |s| ==> s[i] != s[j]
  }

  /** The substitution never leaves oldDn behind in a visited key. */
  predicate NoResidue(visit: seq<Dn>, oldDn: Dn, newDn: Dn)
  {
    forall k :: k in visit && Contains(k, oldDn) ==> !Contains(Substitute(k, oldDn, newDn), oldDn)
  }

  /** visit lists every key of the map exactly once. */
  ghost predicate Enumerates<V>(visit: seq<Dn>, m: map<Dn, V>)
  {
    Distinct(visit) && (forall k :: k in visit <==> k in m)
  }

  lemma AffectedStep(visit: seq<Dn>, oldDn: Dn, newDn: Dn)
    requires |visit| > 0
    ensures var last := visit[|visit| - 1];
            var front := visit[..|visit| - 1];
            Affected(visit, oldDn) == Affected(front, oldDn) + (if Contains(last, oldDn) then {last} else {})
            && Substituted(visit, oldDn, newDn) ==
               Substituted(front, oldDn, newDn) + (if Contains(last, oldDn) then {Substitute(last, oldDn, newDn)} else {})
  {
    assert visit == visit[..|visit| - 1] + [visit[|visit| - 1]];
  }

  /**
   * dn_changes holds each affected key once, in visiting order of first
   * occurrence, and updated_dns maps exactly those keys to their substitutes.
   */
  lemma {:induction false} KeyPassChanges(c: Cache, visit: seq<Dn>, oldDn: Dn, newDn: Dn)
    ensures Distinct(RewriteKeys(c, visit, oldDn, newDn).changes)
    ensures forall k :: k in RewriteKeys(c, visit, oldDn, newDn).changes <==> k in Affected(visit, oldDn)
    ensures RewriteKeys(c, visit, oldDn, newDn).updated.Keys == Affected(visit, oldDn)
    ensures forall k :: k in RewriteKeys(c, visit, oldDn, newDn).updated ==>
              RewriteKeys(c, visit, oldDn, newDn).updated[k] == Substitute(k, oldDn, newDn)
  {
    if |visit| > 0 {
      KeyPassChanges(c, visit[..|visit| - 1], oldDn, newDn);
      AffectedStep(visit, oldDn, newDn);
    }
  }

  /**
   * On delete, exactly the visited keys containing oldDn leave both the map and
   * the loaded set; every other entry is kept as it was.
   */
  lemma {:induction false} DeleteRemovesAffected(c: Cache, visit: seq<Dn>, oldDn: Dn, newDn: Dn)
    requires IsDeletion(oldDn, newDn)
    ensures RewriteKeys(c, visit, oldDn, newDn).cache.loaded == c.loaded - Affected(visit, oldDn)
    ensures RewriteKeys(c, visit, oldDn, newDn).cache.attributes.Keys == c.attributes.Keys - Affected(visit, oldDn)
    ensures forall k :: k in RewriteKeys(c, visit, oldDn, newDn).cache.attributes ==>
              RewriteKeys(c, visit, oldDn, newDn).cache.attributes[k] == c.attributes[k]
  {
    if |visit| > 0 {
      DeleteRemovesAffected(c, visit[..|visit| - 1], oldDn, newDn);
      AffectedStep(visit, oldDn, newDn);
    }
  }

  /** On delete over all cached keys, no cached or loaded key contains the deleted DN any more. */
  lemma DeleteLeavesNoDescendant(c: Cache, visit: seq<Dn>, oldDn: Dn, newDn: Dn)
    requires IsDeletion(oldDn, newDn) && Consistent(c) && Enumerates(visit, c.attributes)
    ensures RewriteKeys(c, visit, oldDn, newDn).cache.attributes.Keys ==
              set k | k in c.attributes && !Contains(k, oldDn)
    ensures RewriteKeys(c, visit, oldDn, newDn).cache.loaded == set k | k in c.loaded && !Contains(k, oldDn)
  {
    DeleteRemovesAffected(c, visit, oldDn, newDn);
  }

  /** The entry update_cache copies into every substituted key: old_dn's, or an empty map. */
  function OldEntry(c: Cache, oldDn: Dn): AttributeMap
  {
    if oldDn in c.attributes then c.attributes[oldDn] else map[]
  }

  /**
   * What the key loop of a move or rename has done to cache c once the keys A
   * were found to contain oldDn and their substitutes S were written: the
   * affected keys have left the map and the loaded set, every substitute is
   * loaded, untouched entries keep their attributes, and each substitute (and
   * old_dn, while present) holds old_dn's original entry or an empty map.
   */
  ghost predicate RenamedKeys(c: Cache, q: Cache, A: set<Dn>, S: set<Dn>, oldDn: Dn)
  {
    q.loaded == (c.loaded - A) + S
    && q.attributes.Keys - {oldDn} == ((c.attributes.Keys - A) + S) - {oldDn}
    && (forall k :: k in c.attributes && k !in A && k !in S ==> k in q.attributes && q.attributes[k] == c.attributes[k])
    && (forall k :: k in S ==> k in q.attributes && q.attributes[k] in {OldEntry(c, oldDn), map[]})
    && (oldDn in q.attributes ==> q.attributes[oldDn] in {OldEntry(c, oldDn), map[]})
  }

  lemma MoveKeyKeeps(c: Cache, q: Cache, A: set<Dn>, S: set<Dn>, dn: Dn, u: Dn, oldDn: Dn)
    requires RenamedKeys(c, q, A, S, oldDn)
    requires u != dn && u != oldDn && dn !in S
    ensures RenamedKeys(c, MoveKey(q, dn, u, oldDn), A + {dn}, S + {u}, oldDn)
  {
    var r := MoveKey(q, dn, u, oldDn);
    forall k | k != oldDn
      ensures k in r.attributes <==> k in (c.attributes.Keys - (A + {dn})) + (S + {u})
    {
      assert k in q.attributes <==> k in q.attributes.Keys - {oldDn};
    }
  }

  /** One iteration of the key loop keeps RenamedKeys, with dn added to A and its substitute to S. */
  lemma RenameStep(c: Cache, p: KeyPass, A: set<Dn>, S: set<Dn>, dn: Dn, oldDn: Dn, newDn: Dn)
    requires !IsDeletion(oldDn, newDn) && RenamedKeys(c, p.cache, A, S, oldDn)
    requires forall k :: k in S ==> !Contains(k, oldDn)
    requires Contains(dn, oldDn) ==> !Contains(Substitute(dn, oldDn, newDn), oldDn)
    ensures RenamedKeys(c, RewriteKey(p, dn, oldDn, newDn).cache,
                        A + (if Contains(dn, oldDn) then {dn} else {}),
                        S + (if Contains(dn, oldDn) then {Substitute(dn, oldDn, newDn)} else {}), oldDn)
  {
    if Contains(dn, oldDn) {
      ContainsSelf(oldDn);
      var u := Substitute(dn, oldDn, newDn);
      MoveKeyKeeps(c, p.cache, A, S, dn, u, oldDn);
    } else {
      assert A + {} == A && S + {} == S;
    }
  }

  /**
   * On move or rename, when no substitute still contains oldDn, the whole key
   * loop establishes RenamedKeys for the affected keys and their substitutes.
   */
  lemma {:induction false} RenameRewritesKeys(c: Cache, visit: seq<Dn>, oldDn: Dn, newDn: Dn)
    requires !IsDeletion(oldDn, newDn) && NoResidue(visit, oldDn, newDn)
    ensures RenamedKeys(c, RewriteKeys(c, visit, oldDn, newDn).cache, Affected(visit, oldDn),
                        Substituted(visit, oldDn, newDn), oldDn)
  {
    if |visit| == 0 {
      assert Affected(visit, oldDn) == {} && Substituted(visit, oldDn, newDn) == {};
    } else {
      var front := visit[..|visit| - 1];
      assert NoResidue(front, oldDn, newDn);
      RenameRewritesKeys(c, front, oldDn, newDn);
      AffectedStep(visit, oldDn, newDn);
      SubstitutesAreNotAffected(front, oldDn, newDn);
      RenameStep(c, RewriteKeys(c, front, oldDn, newDn), Affected(front, oldDn), Substituted(front, oldDn, newDn),
                 visit[|visit| - 1], oldDn, newDn);
    }
  }

  lemma ContainsSelf(s: string)
    ensures Contains(s, s)
  {
    ContainsSuffix([], s);
    assert [] + s == s;
  }

  lemma SubstitutesAreNotAffected(visit: seq<Dn>, oldDn: Dn, newDn: Dn)
    requires NoResidue(visit, oldDn, newDn)
    ensures forall k :: k in Substituted(visit, oldDn, newDn) ==> !Contains(k, oldDn) && k != oldDn
  {
    ContainsSelf(oldDn);
  }

  /** Once an affected key has been visited, old_dn stays in the map, unless old_dn itself is visited. */
  lemma {:induction false} OldDnStays(c: Cache, visit: seq<Dn>, oldDn: Dn, newDn: Dn)
    requires !IsDeletion(oldDn, newDn) && oldDn !in visit && Affected(visit, oldDn) != {}
    ensures oldDn in RewriteKeys(c, visit, oldDn, newDn).cache.attributes
  {
    var front := visit[..|visit| - 1];
    AffectedStep(visit, oldDn, newDn);
    assert visit == front + [visit[|visit| - 1]];
    if Affected(front, oldDn) != {} {
      OldDnStays(c, front, oldDn, newDn);
    }
  }

  /**
   * The phantom entry of line 603: on move or rename of a DN that is not itself
   * cached, the first affected key makes operator[] insert an empty, unloaded
   * old_dn entry, and every substitute receives that empty map.
   */
  lemma PhantomOldEntry(c: Cache, visit: seq<Dn>, oldDn: Dn, newDn: Dn)
    requires !IsDeletion(oldDn, newDn) && NoResidue(visit, oldDn, newDn)
    requires oldDn !in c.attributes && oldDn !in c.loaded && oldDn !in visit
    requires Affected(visit, oldDn) != {}
    ensures oldDn in RewriteKeys(c, visit, oldDn, newDn).cache.attributes
    ensures RewriteKeys(c, visit, oldDn, newDn).cache.attributes[oldDn] == map[]
    ensures oldDn !in RewriteKeys(c, visit, oldDn, newDn).cache.loaded
    ensures forall k :: k in Substituted(visit, oldDn, newDn) ==>
              k in RewriteKeys(c, visit, oldDn, newDn).cache.attributes &&
              RewriteKeys(c, visit, oldDn, newDn).cache.attributes[k] == map[]
  {
    RenameRewritesKeys(c, visit, oldDn, newDn);
    SubstitutesAreNotAffected(visit, oldDn, newDn);
    OldDnStays(c, visit, oldDn, newDn);
  }

  // ------------------------------------- update_cache, phase 2: notifications

  /** The depth of a DN: its number of commas. */
  function Depth(dn: Dn): nat
  {
    Count(dn, ',')
  }

  predicate SortedByDepth(s: seq<Dn>)
  {
    forall i, j :: 0 <= i < j < |s| ==> Depth(s[i]) <= Depth(s[j])
  }

  /** Inserts dn after every element of no greater depth. */
  function InsertByDepth(dn: Dn, sorted: seq<Dn>): (r: seq<Dn>)
    ensures multiset(r) == multiset(sorted) + multiset{dn}
  {
    if |sorted| == 0 then [dn]
    else if Depth(dn) < Depth(sorted[0]) then [dn] + sorted
    else
      assert sorted == [sorted[0]] + sorted[1..];
      [sorted[0]] + InsertByDepth(dn, sorted[1..])
  }

  lemma {:induction false} InsertSorted(dn: Dn, sorted: seq<Dn>)
    requires SortedByDepth(sorted)
    ensures SortedByDepth(InsertByDepth(dn, sorted))
  {
    if |sorted| > 0 && Depth(dn) >= Depth(sorted[0]) {
      var tail := sorted[1..];
      InsertSorted(dn, tail);
      var r := InsertByDepth(dn, tail);
      forall x | x in r
        ensures Depth(sorted[0]) <= Depth(x)
      {
        assert x in multiset(r);
        if x != dn {
          assert x in multiset(tail);
        }
      }
    }
  }

  /**
   * The order std::sort gives dn_changes with the comparator "fewer commas
   * first" (an insertion sort; std::sort may order DNs of equal depth
   * differently, and every property below holds for any such order).
   */
  function SortByDepth(s: seq<Dn>): (r: seq<Dn>)
    ensures multiset(r) == multiset(s)
    ensures SortedByDepth(r)
  {
    if |s| == 0 then []
    else
      assert s == s[..|s| - 1] + [s[|s| - 1]];
      InsertSorted(s[|s| - 1], SortByDepth(s[..|s| - 1]));
      InsertByDepth(s[|s| - 1], SortByDepth(s[..|s| - 1]))
  }

  /** The dn_changed signals, one per entry of the sorted dn_changes. */
  function DnChangedEvents(sorted: seq<Dn>, updated: map<Dn, Dn>): (events: seq<Event>)
    ensures |events| == |sorted|
    ensures forall i :: 0 <= i < |sorted| ==> events[i].DnChanged? && events[i].oldDn == sorted[i]
    ensures forall i :: 0 <= i < |sorted| && sorted[i] in updated ==> events[i].newDn == updated[sorted[i]]
  {
    if |sorted| == 0 then []
    else [DnChanged(sorted[0], if sorted[0] in updated then updated[sorted[0]] else "")]
         + DnChangedEvents(sorted[1..], updated)
  }

  /**
   * The sorted dn_changes of update_cache (the old DNs of its dn_changed
   * signals, in order) list every affected key exactly once, in
   * non-decreasing depth, and each has its substitute in updated_dns.
   */
  lemma DnChangedOncePerKey(c: Cache, visit: seq<Dn>, oldDn: Dn, newDn: Dn)
    ensures Distinct(SortByDepth(RewriteKeys(c, visit, oldDn, newDn).changes))
    ensures SortedByDepth(SortByDepth(RewriteKeys(c, visit, oldDn, newDn).changes))
    ensures forall k :: k in SortByDepth(RewriteKeys(c, visit, oldDn, newDn).changes) <==> k in Affected(visit, oldDn)
    ensures forall k :: k in SortByDepth(RewriteKeys(c, visit, oldDn, newDn).changes) ==>
              k in RewriteKeys(c, visit, oldDn, newDn).updated
              && RewriteKeys(c, visit, oldDn, newDn).updated[k] == Substitute(k, oldDn, newDn)
  {
    var p := RewriteKeys(c, visit, oldDn, newDn);
    KeyPassChanges(c, visit, oldDn, newDn);
    var sorted := SortByDepth(p.changes);
    DistinctByMultiset(p.changes, sorted);
    forall k
      ensures k in p.changes <==> k in sorted
    {
      assert k in p.changes <==> k in multiset(p.changes);
      assert k in sorted <==> k in multiset(sorted);
    }
  }

  /** A permutation of a sequence without duplicates has none either. */
  lemma DistinctByMultiset<T>(s: seq<T>, t: seq<T>)
    requires Distinct(s) && multiset(s) == multiset(t)
    ensures Distinct(t)
  {
    forall i, j | 0 <= i < j < |t|
      ensures t[i] != t[j]
    {
      CountOnce(s, t[i]);
      EqualPairCount(t, i, j);
    }
  }

  lemma EqualPairCount<T>(t: seq<T>, i: nat, j: nat)
    requires i < j < |t|
    ensures t[i] == t[j] ==> multiset(t)[t[i]] >= 2
  {
    if t[i] == t[j] {
      assert t == t[..i] + [t[i]] + t[i + 1..j] + [t[j]] + t[j + 1..];
    }
  }

  lemma {:induction false} CountOnce<T>(s: seq<T>, x: T)
    requires Distinct(s)
    ensures multiset(s)[x] <= 1
  {
    if |s| > 0 {
      assert s == [s[0]] + s[1..];
      assert Distinct(s[1..]);
      CountOnce(s[1..], x);
      if s[0] == x {
        assert x !in s[1..];
      }
    }
  }

  // ------------------------------------------- update_cache, phase 4: values

  /**
   * The inner loop over one value list, from position i on, for the list as it
   * changes, stated for any test hit and rewrite sub of values: a value that
   * hits is located again with indexOf (the first equal value) and removed
   * (remove) or replaced by its rewrite; the loop then goes on with the next
   * position of the changed list, so after a removal the value that moved into
   * the removed position is not examined. Returns the final list and whether
   * any value hit.
   */
  function Scan<T(==)>(values: seq<T>, i: nat, hit: T -> bool, sub: T -> T, remove: bool): (r: (seq<T>, bool))
    ensures |r.0| <= |values|
    ensures !remove ==> |r.0| == |values|
    decreases |values| - i
  {
    if i >= |values| then (values, false)
    else if hit(values[i]) then
      var at := IndexOf(values, values[i]);
      var next := if remove then values[..at] + values[at + 1..] else values[at := sub(values[i])];
      (Scan(next, i + 1, hit, sub, remove).0, true)
    else Scan(values, i + 1, hit, sub, remove)
  }

  /** The test of update_cache: the value contains oldDn. */
  function HitOf(oldDn: Dn): string -> bool
  {
    v => Contains(v, oldDn)
  }

  /** The rewrite of update_cache: every occurrence of oldDn replaced by newDn. */
  function SubOf(oldDn: Dn, newDn: Dn): string -> string
  {
    v => Substitute(v, oldDn, newDn)
  }

  /** The value loop of update_cache over one attribute's values. */
  function ScanValues(values: seq<string>, oldDn: Dn, newDn: Dn): (r: (seq<string>, bool))
  {
    Scan(values, 0, HitOf(oldDn), SubOf(oldDn, newDn), IsDeletion(oldDn, newDn))
  }

  /** The loop reports a hit iff some value from position i on hits. */
  lemma {:induction false} ScanHit<T>(values: seq<T>, i: nat, hit: T -> bool, sub: T -> T, remove: bool)
    ensures Scan(values, i, hit, sub, remove).1 <==> exists j :: i <= j < |values| && hit(values[j])
    decreases |values| - i
  {
    if i < |values| && !hit(values[i]) {
      ScanHit(values, i + 1, hit, sub, remove);
      if exists j :: i <= j < |values| && hit(values[j]) {
        var j :| i <= j < |values| && hit(values[j]);
        assert j != i;
      }
    }
  }

  /** The values a removing loop should keep: those that do not hit. */
  function Keep<T>(values: seq<T>, hit: T -> bool): (r: seq<T>)
    ensures forall v :: v in r ==> v in values && !hit(v)
  {
    if |values| == 0 then []
    else (if hit(values[0]) then [] else [values[0]]) + Keep(values[1..], hit)
  }

  /** The values a rewriting loop should produce: each value that hits rewritten. */
  function RewriteHits<T>(values: seq<T>, hit: T -> bool, sub: T -> T): (r: seq<T>)
    ensures |r| == |values|
    ensures forall j :: 0 <= j < |values| ==> r[j] == if hit(values[j]) then sub(values[j]) else values[j]
  {
    if |values| == 0 then []
    else [if hit(values[0]) then sub(values[0]) else values[0]] + RewriteHits(values[1..], hit, sub)
  }

  /** No two neighbouring values both hit (from position i on). */
  ghost predicate NoAdjacentHits<T>(values: seq<T>, i: nat, hit: T -> bool)
  {
    forall j :: i <= j < |values| - 1 ==> !(hit(values[j]) && hit(values[j + 1]))
  }

  /** The loop at a value that hits and has no equal value before it. */
  lemma ScanAtHit<T>(values: seq<T>, i: nat, hit: T -> bool, sub: T -> T, remove: bool)
    requires i < |values| && hit(values[i])
    requires forall j :: 0 <= j < i ==> values[j] != values[i]
    ensures Scan(values, i, hit, sub, remove) ==
      (Scan(if remove then values[..i] + values[i + 1..] else values[i := sub(values[i])], i + 1, hit, sub, remove).0, true)
  {
    IndexOfIs(values, values[i], i);
  }

  /** The loop passes over a value that does not hit. */
  lemma ScanAtMiss<T>(values: seq<T>, i: nat, hit: T -> bool, sub: T -> T, remove: bool)
    requires i < |values| && !hit(values[i])
    ensures Scan(values, i, hit, sub, remove) == Scan(values, i + 1, hit, sub, remove)
  {
  }

  /** Keep, one position at a time. */
  lemma KeepStep<T>(values: seq<T>, i: nat, hit: T -> bool)
    requires i < |values|
    ensures Keep(values[i..], hit) == (if hit(values[i]) then [] else [values[i]]) + Keep(values[i + 1..], hit)
  {
    assert values[i..][1..] == values[i + 1..];
  }

  /** RewriteHits, one position at a time. */
  lemma RewriteStep<T>(values: seq<T>, i: nat, hit: T -> bool, sub: T -> T)
    requires i < |values|
    ensures RewriteHits(values[i..], hit, sub) ==
      [if hit(values[i]) then sub(values[i]) else values[i]] + RewriteHits(values[i + 1..], hit, sub)
  {
    assert values[i..][1..] == values[i + 1..];
  }

  /** The list a removing loop continues with after a hit at i, seen from position i + 1. */
  lemma RemoveAtLayout<T>(values: seq<T>, i: nat, hit: T -> bool)
    requires i + 1 < |values|
    requires forall j :: 0 <= j < i ==> !hit(values[j])
    requires !hit(values[i + 1])
    requires NoAdjacentHits(values, i + 1, hit)
    ensures var next := values[..i] + values[i + 1..];
            (forall j :: 0 <= j < i + 1 ==> !hit(next[j]))
            && NoAdjacentHits(next, i + 1, hit)
            && next[..i + 1] == values[..i] + [values[i + 1]]
            && next[i + 1..] == values[i + 2..]
  {
    var next := values[..i] + values[i + 1..];
    assert forall j :: 0 <= j < i ==> next[j] == values[j];
    assert forall j :: i <= j < |next| ==> next[j] == values[j + 1];
    assert next[..i + 1] == values[..i] + [values[i + 1]];
    assert next[i + 1..] == values[i + 2..];
  }

  /**
   * A removing loop over values where no two neighbours hit removes exactly
   * the values that hit.
   */
  lemma {:induction false} ScanDeleteExact<T>(values: seq<T>, i: nat, hit: T -> bool, sub: T -> T)
    requires i <= |values|
    requires forall j :: 0 <= j < i ==> !hit(values[j])
    requires NoAdjacentHits(values, i, hit)
    ensures Scan(values, i, hit, sub, true).0 == values[..i] + Keep(values[i..], hit)
    decreases |values| - i, 1
  {
    if i == |values| {
      assert values[i..] == [];
    } else if hit(values[i]) {
      DeleteAtHit(values, i, hit, sub);
    } else {
      var rest := Keep(values[i + 1..], hit);
      assert Scan(values, i, hit, sub, true).0 == (values[..i] + [values[i]]) + rest by {
        ScanAtMiss(values, i, hit, sub, true);
        ScanDeleteExact(values, i + 1, hit, sub);
        assert values[..i + 1] == values[..i] + [values[i]];
      }
      assert Keep(values[i..], hit) == [values[i]] + rest by {
        KeepStep(values, i, hit);
      }
      Regroup(values[..i], values[i], rest);
    }
  }

  lemma {:induction false} DeleteAtHit<T>(values: seq<T>, i: nat, hit: T -> bool, sub: T -> T)
    requires i < |values| && hit(values[i])
    requires forall j :: 0 <= j < i ==> !hit(values[j])
    requires NoAdjacentHits(values, i, hit)
    ensures Scan(values, i, hit, sub, true).0 == values[..i] + Keep(values[i..], hit)
    decreases |values| - i, 0
  {
    var next := values[..i] + values[i + 1..];
    assert Scan(values, i, hit, sub, true).0 == Scan(next, i + 1, hit, sub, true).0 by {
      ScanAtHit(values, i, hit, sub, true);
    }
    var kept := Keep(values[i..], hit);
    assert kept == Keep(values[i + 1..], hit) by {
      KeepStep(values, i, hit);
    }
    if i + 1 < |values| {
      var x := values[i + 1];
      var rest := Keep(values[i + 2..], hit);
      assert Scan(next, i + 1, hit, sub, true).0 == (values[..i] + [x]) + rest by {
        RemoveAtLayout(values, i, hit);
        ScanDeleteExact(next, i + 1, hit, sub);
      }
      assert kept == [x] + rest by {
        KeepStep(values, i + 1, hit);
      }
      Regroup(values[..i], x, rest);
    } else {
      assert next == values[..i];
      assert values[i + 1..] == [];
    }
  }

  lemma Regroup<T>(a: seq<T>, x: T, rest: seq<T>)
    ensures (a + [x]) + rest == a + ([x] + rest)
  {
  }

  /**
   * On delete, when no two neighbouring values contain the deleted DN, the
   * value loop removes exactly the values containing it.
   */
  lemma DeleteDropsValues(values: seq<string>, oldDn: Dn, newDn: Dn)
    requires IsDeletion(oldDn, newDn) && NoAdjacentHits(values, 0, HitOf(oldDn))
    ensures ScanValues(values, oldDn, newDn).0 == Keep(values, HitOf(oldDn))
    ensures forall v :: v in ScanValues(values, oldDn, newDn).0 ==> v in values && !Contains(v, oldDn)
  {
    ScanDeleteExact(values, 0, HitOf(oldDn), SubOf(oldDn, newDn));
    assert values[..0] + Keep(values[0..], HitOf(oldDn)) == Keep(values, HitOf(oldDn)) by {
      assert values[0..] == values;
    }
  }

  /** Two neighbouring values that both contain the deleted DN: the second survives. */
  lemma AdjacentHitSurvives(first: string, second: string, oldDn: Dn, newDn: Dn)
    requires IsDeletion(oldDn, newDn) && Contains(first, oldDn) && Contains(second, oldDn)
    ensures ScanValues([first, second], oldDn, newDn).0 == [second]
    ensures Contains(second, oldDn)
  {
    ScanAtHit([first, second], 0, HitOf(oldDn), SubOf(oldDn, newDn), true);
    assert [first, second][1..] == [second];
  }

  /** Rewrites of the values never hit again. */
  ghost predicate NoRewriteResidue<T>(values: seq<T>, hit: T -> bool, sub: T -> T)
  {
    forall j :: 0 <= j < |values| && hit(values[j]) ==> !hit(sub(values[j]))
  }

  /**
   * A rewriting loop whose rewrites never hit again rewrites every value that
   * hits, in place.
   */
  lemma {:induction false} ScanReplaceExact<T>(values: seq<T>, i: nat, hit: T -> bool, sub: T -> T)
    requires i <= |values|
    requires forall j :: 0 <= j < i ==> !hit(values[j])
    requires NoRewriteResidue(values, hit, sub)
    ensures Scan(values, i, hit, sub, false).0 == values[..i] + RewriteHits(values[i..], hit, sub)
    decreases |values| - i, 1
  {
    if i == |values| {
      assert values[i..] == [];
    } else if hit(values[i]) {
      ReplaceAtHit(values, i, hit, sub);
    } else {
      ReplaceAtMiss(values, i, hit, sub);
    }
  }

  lemma {:induction false} ReplaceAtMiss<T>(values: seq<T>, i: nat, hit: T -> bool, sub: T -> T)
    requires i < |values| && !hit(values[i])
    requires forall j :: 0 <= j < i ==> !hit(values[j])
    requires NoRewriteResidue(values, hit, sub)
    ensures Scan(values, i, hit, sub, false).0 == values[..i] + RewriteHits(values[i..], hit, sub)
    decreases |values| - i, 0
  {
    var rest := RewriteHits(values[i + 1..], hit, sub);
    assert Scan(values, i, hit, sub, false).0 == values[..i + 1] + rest by {
      ScanAtMiss(values, i, hit, sub, false);
      ScanReplaceExact(values, i + 1, hit, sub);
    }
    assert RewriteHits(values[i..], hit, sub) == [values[i]] + rest by {
      RewriteStep(values, i, hit, sub);
    }
    assert values[..i + 1] + rest == values[..i] + ([values[i]] + rest) by {
      assert values[..i + 1] == values[..i] + [values[i]];
    }
  }

  lemma {:induction false} ReplaceAtHit<T>(values: seq<T>, i: nat, hit: T -> bool, sub: T -> T)
    requires i < |values| && hit(values[i])
    requires forall j :: 0 <= j < i ==> !hit(values[j])
    requires NoRewriteResidue(values, hit, sub)
    ensures Scan(values, i, hit, sub, false).0 == values[..i] + RewriteHits(values[i..], hit, sub)
    decreases |values| - i, 0
  {
    var next := values[i := sub(values[i])];
    assert Scan(values, i, hit, sub, false).0 == Scan(next, i + 1, hit, sub, false).0 by {
      ScanAtHit(values, i, hit, sub, false);
    }
    assert Scan(next, i + 1, hit, sub, false).0 == (values[..i] + [sub(values[i])]) + RewriteHits(values[i + 1..], hit, sub) by {
      RewriteAtLayout(values, i, hit, sub);
      ScanReplaceExact(next, i + 1, hit, sub);
    }
    RewriteStep(values, i, hit, sub);
  }

  /** The list a rewriting loop continues with after a hit at i. */
  lemma RewriteAtLayout<T>(values: seq<T>, i: nat, hit: T -> bool, sub: T -> T)
    requires i < |values| && hit(values[i])
    requires forall j :: 0 <= j < i ==> !hit(values[j])
    requires NoRewriteResidue(values, hit, sub)
    ensures var next := values[i := sub(values[i])];
            (forall j :: 0 <= j < i + 1 ==> !hit(next[j]))
            && NoRewriteResidue(next, hit, sub)
            && next[..i + 1] == values[..i] + [sub(values[i])]
            && next[i + 1..] == values[i + 1..]
  {
    var next := values[i := sub(values[i])];
    assert forall j :: 0 <= j < |next| && j != i ==> next[j] == values[j];
    assert next[..i + 1] == values[..i] + [sub(values[i])];
  }

  /**
   * On move or rename, when no substitute still contains oldDn, the value loop
   * substitutes every value containing oldDn, in place, and keeps the others.
   */
  lemma RenameRewritesValues(values: seq<string>, oldDn: Dn, newDn: Dn)
    requires !IsDeletion(oldDn, newDn) && NoRewriteResidue(values, HitOf(oldDn), SubOf(oldDn, newDn))
    ensures |ScanValues(values, oldDn, newDn).0| == |values|
    ensures forall j :: 0 <= j < |values| ==>
              ScanValues(values, oldDn, newDn).0[j] ==
                if Contains(values[j], oldDn) then Substitute(values[j], oldDn, newDn) else values[j]
  {
    var rewritten := RewriteHits(values, HitOf(oldDn), SubOf(oldDn, newDn));
    assert ScanValues(values, oldDn, newDn).0 == rewritten by {
      ScanReplaceExact(values, 0, HitOf(oldDn), SubOf(oldDn, newDn));
      assert values[0..] == values && values[..0] + rewritten == rewritten;
    }
    forall j | 0 <= j < |values|
      ensures rewritten[j] == if Contains(values[j], oldDn) then Substitute(values[j], oldDn, newDn) else values[j]
    {
      assert HitOf(oldDn)(values[j]) == Contains(values[j], oldDn);
    }
  }

  /** The rewrite of one entry's attribute map. */
  function RewriteEntry(m: AttributeMap, oldDn: Dn, newDn: Dn): (r: AttributeMap)
    ensures r.Keys == m.Keys
  {
    map a | a in m :: ScanValues(m[a], oldDn, newDn).0
  }

  /** Whether the rewrite of one entry changed a value. */
  predicate EntryHit(m: AttributeMap, oldDn: Dn, newDn: Dn)
  {
    exists a :: a in m && ScanValues(m[a], oldDn, newDn).1
  }

  /** The value phase over the whole cache; the loaded set and the keys stay. */
  function RewriteValues(c: Cache, oldDn: Dn, newDn: Dn): (r: Cache)
    ensures r.loaded == c.loaded && r.attributes.Keys == c.attributes.Keys
  {
    Cache(map dn | dn in c.attributes :: RewriteEntry(c.attributes[dn], oldDn, newDn), c.loaded)
  }

  /** The DNs that get one attributes_changed signal each from the value phase. */
  function Touched(c: Cache, oldDn: Dn, newDn: Dn): set<Dn>
  {
    set dn | dn in c.attributes && EntryHit(c.attributes[dn], oldDn, newDn)
  }

  /** An entry is touched iff one of its values contains oldDn. */
  lemma TouchedIffContains(c: Cache, oldDn: Dn, newDn: Dn, dn: Dn)
    ensures dn in Touched(c, oldDn, newDn) <==>
      dn in c.attributes &&
      exists a, j :: a in c.attributes[dn] && 0 <= j < |c.attributes[dn][a]| && Contains(c.attributes[dn][a][j], oldDn)
  {
    if dn in c.attributes {
      var m := c.attributes[dn];
      forall a | a in m
        ensures ScanValues(m[a], oldDn, newDn).1 <==> exists j :: 0 <= j < |m[a]| && Contains(m[a][j], oldDn)
      {
        ScanHit(m[a], 0, HitOf(oldDn), SubOf(oldDn, newDn), IsDeletion(oldDn, newDn));
      }
    }
  }

  // ------------------------------------------------------ update_cache, whole

  /** The cache after the key phase and the reload of new_dn (phase 3). */
  function AfterReload(c: Cache, visit: seq<Dn>, oldDn: Dn, newDn: Dn, reload: AttributeReply): Cache
  {
    var keyed := RewriteKeys(c, visit, oldDn, newDn).cache;
    if newDn in keyed.loaded then Load(keyed, newDn, reload) else keyed
  }

  /** update_cache's final cache. */
  function UpdateCacheState(c: Cache, visit: seq<Dn>, oldDn: Dn, newDn: Dn, reload: AttributeReply): Cache
  {
    RewriteValues(AfterReload(c, visit, oldDn, newDn, reload), oldDn, newDn)
  }

  /** Every step of the key loop keeps every loaded key cached. */
  lemma {:induction false} RewriteKeysConsistent(c: Cache, visit: seq<Dn>, oldDn: Dn, newDn: Dn)
    requires Consistent(c)
    ensures Consistent(RewriteKeys(c, visit, oldDn, newDn).cache)
  {
    if |visit| > 0 {
      RewriteKeysConsistent(c, visit[..|visit| - 1], oldDn, newDn);
    }
  }

  /** update_cache keeps every loaded key cached. */
  lemma UpdateCacheConsistent(c: Cache, visit: seq<Dn>, oldDn: Dn, newDn: Dn, reload: AttributeReply)
    requires Consistent(c)
    ensures Consistent(UpdateCacheState(c, visit, oldDn, newDn, reload))
  {
    RewriteKeysConsistent(c, visit, oldDn, newDn);
  }

  /**
   * After a delete, whatever the reload answers, no cached or loaded DN
   * contains the deleted DN: the entry and its whole subtree are forgotten.
   */
  lemma DeleteForgetsSubtree(c: Cache, visit: seq<Dn>, oldDn: Dn, newDn: Dn, reload: AttributeReply)
    requires IsDeletion(oldDn, newDn) && Consistent(c) && Enumerates(visit, c.attributes)
    ensures forall k :: k in UpdateCacheState(c, visit, oldDn, newDn, reload).attributes ==> !Contains(k, oldDn)
    ensures forall k :: k in UpdateCacheState(c, visit, oldDn, newDn, reload).loaded ==> !Contains(k, oldDn)
  {
    DeleteLeavesNoDescendant(c, visit, oldDn, newDn);
    if Contains(newDn, oldDn) {
      ContainsLength(newDn, oldDn);
    }
  }

  /**
   * After a move or rename whose substitutions leave no trace of oldDn, no
   * loaded DN contains oldDn, and the only cached DN that may still contain
   * it is oldDn itself (the entry operator[] creates on line 603).
   */
  lemma RenameForgetsOldKeys(c: Cache, visit: seq<Dn>, oldDn: Dn, newDn: Dn, reload: AttributeReply)
    requires !IsDeletion(oldDn, newDn) && NoResidue(visit, oldDn, newDn)
    requires Consistent(c) && Enumerates(visit, c.attributes)
    ensures forall k :: k in UpdateCacheState(c, visit, oldDn, newDn, reload).loaded ==> !Contains(k, oldDn)
    ensures forall k :: k in UpdateCacheState(c, visit, oldDn, newDn, reload).attributes && k != oldDn ==>
              !Contains(k, oldDn)
  {
    RenameRewritesKeys(c, visit, oldDn, newDn);
    SubstitutesAreNotAffected(visit, oldDn, newDn);
    var keyed := RewriteKeys(c, visit, oldDn, newDn).cache;
    assert forall k :: k in keyed.loaded ==> !Contains(k, oldDn);
    forall k | k in keyed.attributes && k != oldDn
      ensures !Contains(k, oldDn)
    {
      assert k in keyed.attributes.Keys - {oldDn};
      assert k in (c.attributes.Keys - Affected(visit, oldDn)) + Substituted(visit, oldDn, newDn);
    }
  }

  /** The attributes_changed signals of a batch of DNs. */
  function AttributesChangedEvents(batch: seq<Dn>): (events: seq<Event>)
    ensures |events| == |batch|
    ensures forall i :: 0 <= i < |batch| ==> events[i] == AttributesChanged(batch[i])
  {
    if |batch| == 0 then [] else [AttributesChanged(batch[0])] + AttributesChangedEvents(batch[1..])
  }

  /**
   * update_cache's signals: dn_changed by depth, then the reload of new_dn
   * with its attributes_changed, then one attributes_changed per touched DN in
   * the (unspecified) order batch of the QSet.
   */
  function UpdateCacheEvents(c: Cache, visit: seq<Dn>, oldDn: Dn, newDn: Dn, reload: AttributeReply, batch: seq<Dn>): seq<Event>
  {
    var p := RewriteKeys(c, visit, oldDn, newDn);
    DnChangedEvents(SortByDepth(p.changes), p.updated)
    + (if newDn in p.cache.loaded then LoadEvents(newDn, reload) + [AttributesChanged(newDn)] else [])
    + AttributesChangedEvents(batch)
  }
}
