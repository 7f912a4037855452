/**
 * AdInterface: the cache of directory attributes that the console reads
 * through, filled lazily from the directory client and patched in place after
 * group-membership changes, deletes, moves and renames. Each client read is a
 * parameter (the answer the client gives to that one call); each modifying
 * client call is given as its result code and error text. Signals go to the
 * ghost log events, in emission order.
 */
module AdSession {
  import opened QtText
  import opened AttributeCache
  import DistinguishedNames
  import DropTypes

  /** The client call rename makes. */
  datatype RenameCall = RenameUserCall | RenameGroupCall | RenameRdnCall(newRdn: string)

  /**
   * What update_cache leaves behind, for the keys in visiting order visit and
   * the touched DNs in signalling order batch.
   */
  ghost predicate UpdatedCache(c0: Cache, c: Cache, e0: seq<Event>, e: seq<Event>, visit: seq<Dn>, batch: seq<Dn>,
                               oldDn: Dn, newDn: Dn, reload: AttributeReply)
  {
    Enumerates(visit, c0.attributes)
    && Distinct(batch)
    && (forall d :: d in batch <==> d in Touched(AfterReload(c0, visit, oldDn, newDn, reload), oldDn, newDn))
    && c == UpdateCacheState(c0, visit, oldDn, newDn, reload)
    && e == e0 + UpdateCacheEvents(c0, visit, oldDn, newDn, reload, batch)
  }

  /** Whether dn is a user, read through get_attributes. */
  function IsUserOf(c: Cache, dn: Dn, reply: AttributeReply): bool
  {
    "user" in ValuesOf(GetResult(c, dn, reply), "objectClass")
  }

  /**
   * The call rename makes: the user rename for users, else the group rename
   * for groups, else a plain rename to the new RDN (the old RDN's type prefix
   * followed by the new name).
   */
  function RenameCallOf(c: Cache, dn: Dn, newName: string, userReply: AttributeReply, groupReply: AttributeReply): RenameCall
  {
    if IsUserOf(c, dn, userReply) then RenameUserCall
    else if "group" in ValuesOf(GetResult(AfterGet(c, dn, userReply), dn, groupReply), "objectClass") then RenameGroupCall
    else RenameRdnCall(DistinguishedNames.RdnPrefix(DistinguishedNames.FirstRdn(dn)) + newName)
  }

  /** The cache after rename's type checks. */
  function RenameRead(c: Cache, dn: Dn, userReply: AttributeReply, groupReply: AttributeReply): Cache
  {
    var afterUser := AfterGet(c, dn, userReply);
    if IsUserOf(c, dn, userReply) then afterUser else AfterGet(afterUser, dn, groupReply)
  }

  /** The signals of rename's type checks. */
  function RenameReadEvents(c: Cache, dn: Dn, userReply: AttributeReply, groupReply: AttributeReply): seq<Event>
  {
    GetEvents(c, dn, userReply)
    + if IsUserOf(c, dn, userReply) then [] else GetEvents(AfterGet(c, dn, userReply), dn, groupReply)
  }

  /** Rename's type checks on a user: one read, and the user rename. */
  lemma RenameReadOfUser(c: Cache, dn: Dn, newName: string, userReply: AttributeReply, groupReply: AttributeReply)
    requires IsUserOf(c, dn, userReply)
    ensures RenameCallOf(c, dn, newName, userReply, groupReply) == RenameUserCall
    ensures RenameRead(c, dn, userReply, groupReply) == AfterGet(c, dn, userReply)
    ensures RenameReadEvents(c, dn, userReply, groupReply) == GetEvents(c, dn, userReply)
  {
  }

  /** Rename's type checks on anything else: a second read for the group check. */
  lemma RenameReadOfOther(c: Cache, dn: Dn, newName: string, userReply: AttributeReply, groupReply: AttributeReply)
    requires !IsUserOf(c, dn, userReply)
    ensures var afterUser := AfterGet(c, dn, userReply);
            && RenameCallOf(c, dn, newName, userReply, groupReply)
               == (if "group" in ValuesOf(GetResult(afterUser, dn, groupReply), "objectClass") then RenameGroupCall
                   else RenameRdnCall(DistinguishedNames.RdnPrefix(DistinguishedNames.FirstRdn(dn)) + newName))
            && RenameRead(c, dn, userReply, groupReply) == AfterGet(afterUser, dn, groupReply)
            && RenameReadEvents(c, dn, userReply, groupReply) == GetEvents(c, dn, userReply) + GetEvents(afterUser, dn, groupReply)
  {
  }

  /** Rename's type checks keep the cache consistent. */
  lemma RenameReadConsistent(c: Cache, dn: Dn, userReply: AttributeReply, groupReply: AttributeReply)
    requires Consistent(c)
    ensures Consistent(RenameRead(c, dn, userReply, groupReply))
  {
    var afterUser := AfterGet(c, dn, userReply);
    assert Consistent(afterUser);
  }

  /** One is_* call: the DN read, the objectClass value asked about, and the client's answer to that read. */
  datatype ClassCheck = ClassCheck(dn: Dn, objectClass: string, reply: AttributeReply)

  /** The is_* calls of get_drop_type in source order: user, group, OU of the dropped DN, then user, group, OU, container of the target. */
  function DropChecks(dn: Dn, targetDn: Dn, replies: seq<AttributeReply>): (checks: seq<ClassCheck>)
    requires |replies| == 7
    ensures |checks| == 7
    ensures forall i :: 0 <= i < 3 ==> checks[i].dn == dn
    ensures forall i :: 3 <= i < 7 ==> checks[i].dn == targetDn
    ensures forall i :: 0 <= i < 7 ==> checks[i].reply == replies[i]
  {
    [ClassCheck(dn, "user", replies[0]), ClassCheck(dn, "group", replies[1]),
     ClassCheck(dn, "organizationalUnit", replies[2]),
     ClassCheck(targetDn, "user", replies[3]), ClassCheck(targetDn, "group", replies[4]),
     ClassCheck(targetDn, "organizationalUnit", replies[5]), ClassCheck(targetDn, "container", replies[6])]
  }

  /** The cache after a run of is_* calls, each reading through get_attributes. */
  function AfterChecks(c: Cache, checks: seq<ClassCheck>): Cache
    decreases |checks|
  {
    if checks == [] then c else AfterChecks(AfterGet(c, checks[0].dn, checks[0].reply), checks[1..])
  }

  /** The signals of a run of is_* calls, in order. */
  function CheckEvents(c: Cache, checks: seq<ClassCheck>): seq<Event>
    decreases |checks|
  {
    if checks == [] then []
    else GetEvents(c, checks[0].dn, checks[0].reply) + CheckEvents(AfterGet(c, checks[0].dn, checks[0].reply), checks[1..])
  }

  /** The answers of a run of is_* calls: whether each DN's objectClass, as read at that point, holds the value asked about. */
  function CheckAnswers(c: Cache, checks: seq<ClassCheck>): (answers: seq<bool>)
    ensures |answers| == |checks|
    decreases |checks|
  {
    if checks == [] then []
    else [checks[0].objectClass in ValuesOf(GetResult(c, checks[0].dn, checks[0].reply), "objectClass")]
         + CheckAnswers(AfterGet(c, checks[0].dn, checks[0].reply), checks[1..])
  }

  /** A run of is_* calls split in two: the second part starts from where the first leaves the cache. */
  lemma ChecksSplit(c: Cache, first: seq<ClassCheck>, second: seq<ClassCheck>)
    ensures AfterChecks(c, first + second) == AfterChecks(AfterChecks(c, first), second)
    ensures CheckEvents(c, first + second) == CheckEvents(c, first) + CheckEvents(AfterChecks(c, first), second)
    ensures CheckAnswers(c, first + second) == CheckAnswers(c, first) + CheckAnswers(AfterChecks(c, first), second)
  {
    AfterChecksSplit(c, first, second);
    CheckEventsSplit(c, first, second);
    CheckAnswersSplit(c, first, second);
  }

  lemma {:induction false} AfterChecksSplit(c: Cache, first: seq<ClassCheck>, second: seq<ClassCheck>)
    ensures AfterChecks(c, first + second) == AfterChecks(AfterChecks(c, first), second)
    decreases |first|
  {
    if first == [] {
      assert first + second == second;
    } else {
      assert (first + second)[0] == first[0];
      assert (first + second)[1..] == first[1..] + second;
      AfterChecksSplit(AfterGet(c, first[0].dn, first[0].reply), first[1..], second);
    }
  }

  lemma {:induction false} CheckEventsSplit(c: Cache, first: seq<ClassCheck>, second: seq<ClassCheck>)
    ensures CheckEvents(c, first + second) == CheckEvents(c, first) + CheckEvents(AfterChecks(c, first), second)
    decreases |first|
  {
    if first == [] {
      assert first + second == second;
    } else {
      var next := AfterGet(c, first[0].dn, first[0].reply);
      assert (first + second)[0] == first[0];
      assert (first + second)[1..] == first[1..] + second;
      CheckEventsSplit(next, first[1..], second);
      var head := GetEvents(c, first[0].dn, first[0].reply);
      var rest := CheckEvents(next, first[1..]);
      var tail := CheckEvents(AfterChecks(next, first[1..]), second);
      assert head + (rest + tail) == head + rest + tail;
    }
  }

  lemma {:induction false} CheckAnswersSplit(c: Cache, first: seq<ClassCheck>, second: seq<ClassCheck>)
    ensures CheckAnswers(c, first + second) == CheckAnswers(c, first) + CheckAnswers(AfterChecks(c, first), second)
    decreases |first|
  {
    if first == [] {
      assert first + second == second;
    } else {
      var next := AfterGet(c, first[0].dn, first[0].reply);
      assert (first + second)[0] == first[0];
      assert (first + second)[1..] == first[1..] + second;
      CheckAnswersSplit(next, first[1..], second);
      var head := [first[0].objectClass in ValuesOf(GetResult(c, first[0].dn, first[0].reply), "objectClass")];
      var rest := CheckAnswers(next, first[1..]);
      var tail := CheckAnswers(AfterChecks(next, first[1..]), second);
      assert head + (rest + tail) == head + rest + tail;
    }
  }

  /** One more is_* call at the end of a run. */
  lemma ChecksSnoc(c: Cache, checks: seq<ClassCheck>, k: ClassCheck)
    ensures var before := AfterChecks(c, checks);
            && AfterChecks(c, checks + [k]) == AfterGet(before, k.dn, k.reply)
            && CheckEvents(c, checks + [k]) == CheckEvents(c, checks) + GetEvents(before, k.dn, k.reply)
            && CheckAnswers(c, checks + [k])
               == CheckAnswers(c, checks) + [k.objectClass in ValuesOf(GetResult(before, k.dn, k.reply), "objectClass")]
  {
    ChecksSplit(c, checks, [k]);
    var before := AfterChecks(c, checks);
    assert [k][1..] == [];
    assert CheckEvents(before, [k]) == GetEvents(before, k.dn, k.reply) + [];
  }

  /** A run of is_* calls keeps the cache consistent. */
  lemma {:induction false} ChecksConsistent(c: Cache, checks: seq<ClassCheck>)
    requires Consistent(c)
    ensures Consistent(AfterChecks(c, checks))
    decreases |checks|
  {
    if checks != [] {
      ChecksConsistent(AfterGet(c, checks[0].dn, checks[0].reply), checks[1..]);
    }
  }

  /** is_* calls on a loaded DN ask the client nothing, signal nothing, and answer from the cached entry. */
  lemma {:induction false} ChecksOnLoaded(c: Cache, checks: seq<ClassCheck>, dn: Dn)
    requires dn != "" && dn in c.loaded
    requires forall i :: 0 <= i < |checks| ==> checks[i].dn == dn
    ensures AfterChecks(c, checks) == c && CheckEvents(c, checks) == []
    ensures forall i :: 0 <= i < |checks| ==>
              CheckAnswers(c, checks)[i] == (checks[i].objectClass in ValuesOf(Lookup(c, dn), "objectClass"))
    decreases |checks|
  {
    if checks != [] {
      ChecksOnLoaded(c, checks[1..], dn);
    }
  }

  /**
   * A run of is_* calls on one DN whose first read loads it: the client is
   * asked once, and every call answers from what that read loaded.
   */
  lemma ChecksFirstLoads(c: Cache, checks: seq<ClassCheck>, dn: Dn)
    requires dn != "" && |checks| > 0 && checks[0].reply.Entries?
    requires forall i :: 0 <= i < |checks| ==> checks[i].dn == dn
    ensures AfterChecks(c, checks) == AfterGet(c, dn, checks[0].reply)
    ensures CheckEvents(c, checks) == GetEvents(c, dn, checks[0].reply)
    ensures forall i :: 0 <= i < |checks| ==>
              CheckAnswers(c, checks)[i] == (checks[i].objectClass in ValuesOf(GetResult(c, dn, checks[0].reply), "objectClass"))
  {
    var loaded := AfterGet(c, dn, checks[0].reply);
    GetLoadsOnce(c, dn, checks[0].reply, checks[0].reply);
    ChecksOnLoaded(loaded, checks[1..], dn);
  }

  /**
   * A run of is_* calls on one DN that the client answers the same way every
   * time: the cache ends as after one read, and every call answers from it.
   */
  lemma {:induction false} ChecksSameReply(c: Cache, checks: seq<ClassCheck>, dn: Dn, reply: AttributeReply)
    requires |checks| > 0
    requires forall i :: 0 <= i < |checks| ==> checks[i].dn == dn && checks[i].reply == reply
    ensures AfterChecks(c, checks) == AfterGet(c, dn, reply)
    ensures forall i :: 0 <= i < |checks| ==>
              CheckAnswers(c, checks)[i] == (checks[i].objectClass in ValuesOf(GetResult(c, dn, reply), "objectClass"))
    decreases |checks|
  {
    var next := AfterGet(c, dn, reply);
    GetStable(c, dn, reply);
    if |checks| > 1 {
      ChecksSameReply(next, checks[1..], dn, reply);
    }
  }

  /**
   * When the client answers every read of a DN the same way, get_drop_type
   * classifies each DN by the object classes of that one answer, and the
   * cache ends as after one read of each DN.
   */
  lemma DropChecksSameAnswers(c: Cache, dn: Dn, targetDn: Dn, replies: seq<AttributeReply>)
    requires |replies| == 7
    requires replies[1] == replies[0] && replies[2] == replies[0]
    requires replies[4] == replies[3] && replies[5] == replies[3] && replies[6] == replies[3]
    ensures var checks := DropChecks(dn, targetDn, replies);
            var answers := CheckAnswers(c, checks);
            var afterDropped := AfterGet(c, dn, replies[0]);
            var dropped := DropTypes.KindsOf(ValuesOf(GetResult(c, dn, replies[0]), "objectClass"));
            var target := DropTypes.KindsOf(ValuesOf(GetResult(afterDropped, targetDn, replies[3]), "objectClass"));
            && DropTypes.ObjectKinds(answers[0], answers[1], answers[2], false) == dropped.(isContainer := false)
            && DropTypes.ObjectKinds(answers[3], answers[4], answers[5], answers[6]) == target
            && AfterChecks(c, checks) == AfterGet(afterDropped, targetDn, replies[3])
  {
    var checks := DropChecks(dn, targetDn, replies);
    assert checks == checks[..3] + checks[3..];
    ChecksSplit(c, checks[..3], checks[3..]);
    ChecksSameReply(c, checks[..3], dn, replies[0]);
    ChecksSameReply(AfterChecks(c, checks[..3]), checks[3..], targetDn, replies[3]);
  }

  /**
   * Once a read loads a DN, the later is_* calls on it ask the client nothing
   * and signal nothing: when the first read of each DN loads it, the cache,
   * the signals and every answer come from those two reads alone.
   */
  lemma DropChecksLoadOnce(c: Cache, dn: Dn, targetDn: Dn, replies: seq<AttributeReply>)
    requires |replies| == 7 && dn != "" && targetDn != ""
    requires replies[0].Entries? && replies[3].Entries?
    ensures var checks := DropChecks(dn, targetDn, replies);
            var answers := CheckAnswers(c, checks);
            var afterDropped := AfterGet(c, dn, replies[0]);
            && AfterChecks(c, checks) == AfterGet(afterDropped, targetDn, replies[3])
            && CheckEvents(c, checks) == GetEvents(c, dn, replies[0]) + GetEvents(afterDropped, targetDn, replies[3])
            && (forall i :: 0 <= i < 3 ==>
                  answers[i] == (checks[i].objectClass in ValuesOf(GetResult(c, dn, replies[0]), "objectClass")))
            && (forall i :: 3 <= i < 7 ==>
                  answers[i] == (checks[i].objectClass in ValuesOf(GetResult(afterDropped, targetDn, replies[3]), "objectClass")))
  {
    var checks := DropChecks(dn, targetDn, replies);
    assert checks == checks[..3] + checks[3..];
    ChecksSplit(c, checks[..3], checks[3..]);
    ChecksFirstLoads(c, checks[..3], dn);
    ChecksFirstLoads(AfterChecks(c, checks[..3]), checks[3..], targetDn);
  }

  /** The parsing loop of load_attributes: the reply's attribute/value pairs grouped by attribute. */
  method ParseAttributeReply(raw: seq<string>) returns (entry: AttributeMap)
    ensures entry == ParsedAttributes(raw)
  {
    entry := map[];
    var i := 0;
    ghost var pairs := 0;
    // the client's array is read while element i + 2 exists
    while i + 2 < |raw|
      invariant i == 2 * pairs && (i == 0 || i < |raw|)
      invariant entry == Grouped(raw, pairs)
    {
      var attribute := raw[i];
      var value := raw[i + 1];
      ghost var before := entry;
      if attribute !in entry {
        entry := entry[attribute := []];
      }
      entry := entry[attribute := entry[attribute] + [value]];
      assert entry == AppendValue(before, attribute, value);
      i := i + 2;
      pairs := pairs + 1;
    }
    assert pairs == PairCount(raw);
  }

  /** The innermost loop of update_cache over one value list. */
  method RewriteValueList(values: seq<string>, oldDn: Dn, newDn: Dn) returns (rewritten: seq<string>, hit: bool)
    ensures (rewritten, hit) == ScanValues(values, oldDn, newDn)
  {
    var deleted := oldDn != "" && newDn == "";
    rewritten := values;
    hit := false;
    var i := 0;
    while i < |rewritten|
      invariant ScanValues(values, oldDn, newDn) ==
        (Scan(rewritten, i, HitOf(oldDn), SubOf(oldDn, newDn), deleted).0,
         hit || Scan(rewritten, i, HitOf(oldDn), SubOf(oldDn, newDn), deleted).1)
      decreases |rewritten| - i
    {
      if Contains(rewritten[i], oldDn) {
        var at := IndexOf(rewritten, rewritten[i]);
        if deleted {
          rewritten := rewritten[..at] + rewritten[at + 1..];
        } else {
          rewritten := rewritten[at := ReplaceAll(rewritten[i], oldDn, newDn)];
        }
        hit := true;
      }
      i := i + 1;
    }
  }

  /** The loop of update_cache over the value lists of one entry. */
  method RewriteAttributeMap(entry: AttributeMap, oldDn: Dn, newDn: Dn) returns (rewritten: AttributeMap, hit: bool)
    ensures rewritten == RewriteEntry(entry, oldDn, newDn)
    ensures hit == EntryHit(entry, oldDn, newDn)
  {
    rewritten := entry;
    hit := false;
    var todo := entry.Keys;
    while todo != {}
      invariant todo <= entry.Keys
      invariant rewritten == PartlyRewritten(entry, todo, oldDn, newDn)
      invariant hit == HitOutside(entry, todo, oldDn, newDn)
      decreases |todo|
    {
      var a :| a in todo;
      var values, valuesHit := RewriteValueList(rewritten[a], oldDn, newDn);
      PartlyRewrittenStep(entry, todo, a, oldDn, newDn);
      rewritten := rewritten[a := values];
      hit := hit || valuesHit;
      todo := todo - {a};
    }
    PartlyRewrittenDone(entry, oldDn, newDn);
  }

  /** An entry whose attributes outside todo have been rewritten. */
  function PartlyRewritten(entry: AttributeMap, todo: set<string>, oldDn: Dn, newDn: Dn): AttributeMap
  {
    map a | a in entry :: if a in todo then entry[a] else ScanValues(entry[a], oldDn, newDn).0
  }

  /** Whether a rewritten attribute outside todo had a hit. */
  predicate HitOutside(entry: AttributeMap, todo: set<string>, oldDn: Dn, newDn: Dn)
  {
    exists a :: a in entry && a !in todo && ScanValues(entry[a], oldDn, newDn).1
  }

  lemma PartlyRewrittenStep(entry: AttributeMap, todo: set<string>, a: string, oldDn: Dn, newDn: Dn)
    requires a in todo && todo <= entry.Keys
    ensures PartlyRewritten(entry, todo, oldDn, newDn)[a] == entry[a]
    ensures PartlyRewritten(entry, todo, oldDn, newDn)[a := ScanValues(entry[a], oldDn, newDn).0]
            == PartlyRewritten(entry, todo - {a}, oldDn, newDn)
    ensures HitOutside(entry, todo - {a}, oldDn, newDn)
            == (HitOutside(entry, todo, oldDn, newDn) || ScanValues(entry[a], oldDn, newDn).1)
  {
  }

  lemma PartlyRewrittenDone(entry: AttributeMap, oldDn: Dn, newDn: Dn)
    ensures PartlyRewritten(entry, {}, oldDn, newDn) == RewriteEntry(entry, oldDn, newDn)
    ensures HitOutside(entry, {}, oldDn, newDn) == EntryHit(entry, oldDn, newDn)
  {
  }

  /** The loop of update_cache over the cached entries, on the cache c. */
  method RewriteEntries(c: Cache, oldDn: Dn, newDn: Dn) returns (entries: map<Dn, AttributeMap>, attributeChanges: set<Dn>)
    ensures entries == RewriteValues(c, oldDn, newDn).attributes
    ensures attributeChanges == Touched(c, oldDn, newDn)
  {
    entries := c.attributes;
    attributeChanges := {};
    var remaining := entries.Keys;
    while remaining != {}
      invariant remaining <= c.attributes.Keys
      invariant entries == PartlyRewrittenCache(c, remaining, oldDn, newDn)
      invariant attributeChanges == TouchedOutside(c, remaining, oldDn, newDn)
      decreases |remaining|
    {
      var dn :| dn in remaining;
      PartlyRewrittenCacheStep(c, remaining, dn, oldDn, newDn);
      var entry, hit := RewriteAttributeMap(entries[dn], oldDn, newDn);
      entries := entries[dn := entry];
      if hit {
        attributeChanges := attributeChanges + {dn};
      }
      remaining := remaining - {dn};
    }
    PartlyRewrittenCacheDone(c, oldDn, newDn);
  }

  /** The cache with the entries outside remaining rewritten. */
  function PartlyRewrittenCache(c: Cache, remaining: set<Dn>, oldDn: Dn, newDn: Dn): map<Dn, AttributeMap>
  {
    map d | d in c.attributes :: if d in remaining then c.attributes[d] else RewriteEntry(c.attributes[d], oldDn, newDn)
  }

  /** The touched entries outside remaining. */
  function TouchedOutside(c: Cache, remaining: set<Dn>, oldDn: Dn, newDn: Dn): set<Dn>
  {
    set d | d in c.attributes && d !in remaining && EntryHit(c.attributes[d], oldDn, newDn)
  }

  lemma PartlyRewrittenCacheStep(c: Cache, remaining: set<Dn>, dn: Dn, oldDn: Dn, newDn: Dn)
    requires dn in remaining && remaining <= c.attributes.Keys
    ensures PartlyRewrittenCache(c, remaining, oldDn, newDn)[dn] == c.attributes[dn]
    ensures PartlyRewrittenCache(c, remaining, oldDn, newDn)[dn := RewriteEntry(c.attributes[dn], oldDn, newDn)]
            == PartlyRewrittenCache(c, remaining - {dn}, oldDn, newDn)
    ensures TouchedOutside(c, remaining - {dn}, oldDn, newDn)
            == TouchedOutside(c, remaining, oldDn, newDn)
               + (if EntryHit(c.attributes[dn], oldDn, newDn) then {dn} else {})
  {
  }

  lemma PartlyRewrittenCacheDone(c: Cache, oldDn: Dn, newDn: Dn)
    ensures PartlyRewrittenCache(c, {}, oldDn, newDn) == RewriteValues(c, oldDn, newDn).attributes
    ensures TouchedOutside(c, c.attributes.Keys, oldDn, newDn) == {}
    ensures TouchedOutside(c, {}, oldDn, newDn) == Touched(c, oldDn, newDn)
  {
  }

  class AdInterface {
    var attributesMap: map<Dn, AttributeMap>
    var attributesLoaded: set<Dn>
    ghost var events: seq<Event>

    /** The cache as a value. */
    function State(): Cache
      reads this
    {
      Cache(attributesMap, attributesLoaded)
    }

    ghost predicate Valid()
      reads this
    {
      Consistent(State())
    }

    constructor ()
      ensures State() == Cache(map[], {}) && events == [] && Valid()
    {
      attributesMap := map[];
      attributesLoaded := {};
      events := [];
    }

    /** load_attributes: read all attributes of dn and replace its cached entry. */
    method LoadAttributes(dn: Dn, reply: AttributeReply)
      modifies this
      ensures old(Valid()) ==> Valid()
      ensures State() == Load(old(State()), dn, reply)
      ensures events == old(events) + LoadEvents(dn, reply)
    {
      match reply
      case Entries(raw) =>
        var entry := ParseAttributeReply(raw);
        attributesMap := attributesMap[dn := entry];
        attributesLoaded := attributesLoaded + {dn};
        events := events + [LoadAttributesComplete(dn)];
      case NoEntries(code, message) =>
        if code != AD_SUCCESS {
          events := events + [LoadAttributesFailed(dn, message)];
        }
    }

    /** get_attributes: the cached entry, loading it first when it was never loaded. */
    method GetAttributes(dn: Dn, reply: AttributeReply) returns (attributes: AttributeMap)
      modifies this
      ensures attributes == GetResult(old(State()), dn, reply)
      ensures State() == AfterGet(old(State()), dn, reply)
      ensures events == old(events) + GetEvents(old(State()), dn, reply)
    {
      if dn == "" {
        return map[];
      }
      if dn !in attributesLoaded {
        LoadAttributes(dn, reply);
      }
      if dn !in attributesMap {
        attributes := map[];
      } else {
        attributes := attributesMap[dn];
      }
    }

    /** get_attribute_multi: all values of one attribute, none when absent. */
    method GetAttributeMulti(dn: Dn, attribute: string, reply: AttributeReply) returns (values: seq<string>)
      modifies this
      ensures values == ValuesOf(GetResult(old(State()), dn, reply), attribute)
      ensures State() == AfterGet(old(State()), dn, reply)
      ensures events == old(events) + GetEvents(old(State()), dn, reply)
    {
      var attributes := GetAttributes(dn, reply);
      if attribute in attributes {
        values := attributes[attribute];
      } else {
        values := [];
      }
    }

    /** get_attribute: the first value of one attribute, "" when there is none. */
    method GetAttribute(dn: Dn, attribute: string, reply: AttributeReply) returns (value: string)
      modifies this
      ensures value == FirstValue(ValuesOf(GetResult(old(State()), dn, reply), attribute))
      ensures State() == AfterGet(old(State()), dn, reply)
      ensures events == old(events) + GetEvents(old(State()), dn, reply)
    {
      var values := GetAttributeMulti(dn, attribute, reply);
      if |values| > 0 {
        value := values[0];
      } else {
        value := "";
      }
    }

    /** attribute_value_exists. */
    method AttributeValueExists(dn: Dn, attribute: string, value: string, reply: AttributeReply) returns (present: bool)
      modifies this
      ensures present <==> value in ValuesOf(GetResult(old(State()), dn, reply), attribute)
      ensures State() == AfterGet(old(State()), dn, reply)
      ensures events == old(events) + GetEvents(old(State()), dn, reply)
    {
      var values := GetAttributeMulti(dn, attribute, reply);
      present := value in values;
    }

    /** is_user, is_group, is_ou, is_container: a value of objectClass. */
    method HasObjectClass(dn: Dn, objectClass: string, reply: AttributeReply) returns (present: bool)
      modifies this
      ensures present <==> objectClass in ValuesOf(GetResult(old(State()), dn, reply), "objectClass")
      ensures State() == AfterGet(old(State()), dn, reply)
      ensures events == old(events) + GetEvents(old(State()), dn, reply)
    {
      present := AttributeValueExists(dn, "objectClass", objectClass, reply);
    }

    /**
     * set_attribute: reads the old value (loading the entry if needed), then
     * on success reloads the entry; on failure the cache stays as the read
     * left it.
     */
    method SetAttribute(dn: Dn, attribute: string, value: string, before: AttributeReply,
                        result: int, error: string, after: AttributeReply) returns (ok: bool)
      modifies this
      ensures old(Valid()) ==> Valid()
      ensures ok <==> result == AD_SUCCESS
      ensures var read := AfterGet(old(State()), dn, before);
              State() == if ok then Load(read, dn, after) else read
      ensures var oldValue := FirstValue(ValuesOf(GetResult(old(State()), dn, before), attribute));
              events == old(events) + GetEvents(old(State()), dn, before)
                        + if ok then LoadEvents(dn, after) + [AttributesChanged(dn), SetAttributeComplete(dn, attribute, oldValue, value)]
                          else [SetAttributeFailed(dn, attribute, oldValue, value, error)]
    {
      var oldValue := GetAttribute(dn, attribute, before);
      if result == AD_SUCCESS {
        LoadAttributes(dn, after);
        events := events + [AttributesChanged(dn), SetAttributeComplete(dn, attribute, oldValue, value)];
        ok := true;
      } else {
        events := events + [SetAttributeFailed(dn, attribute, oldValue, value, error)];
        ok := false;
      }
    }

    /** add_attribute_internal. */
    method AddAttributeInternal(dn: Dn, attribute: string, value: string)
      modifies this
      ensures old(Valid()) ==> Valid()
      ensures State() == AddValue(old(State()), dn, attribute, value)
      ensures events == old(events) + AddEvents(old(State()), dn)
    {
      if dn in attributesLoaded {
        var entry := if dn in attributesMap then attributesMap[dn] else map[];
        var values := if attribute in entry then entry[attribute] else [];
        attributesMap := attributesMap[dn := entry[attribute := values + [value]]];
        events := events + [AttributesChanged(dn)];
      }
    }

    /** remove_attribute_internal. */
    method RemoveAttributeInternal(dn: Dn, attribute: string, value: string)
      modifies this
      ensures old(Valid()) ==> Valid()
      ensures State() == RemoveValue(old(State()), dn, attribute, value)
      ensures events == old(events) + RemoveEvents(old(State()), dn, attribute, value)
    {
      if dn in attributesLoaded {
        // operator[] creates the entry and the attribute when they are missing
        var entry := Lookup(State(), dn);
        var values := ValuesOf(entry, attribute);
        var i := IndexOf(values, value);
        if i != -1 {
          attributesMap := attributesMap[dn := entry[attribute := values[..i] + values[i + 1..]]];
          events := events + [AttributesChanged(dn)];
        } else {
          attributesMap := attributesMap[dn := entry[attribute := values]];
        }
      }
    }

    /** add_user_to_group: on success the group gains the member and the user the memberOf value. */
    method AddUserToGroup(groupDn: Dn, userDn: Dn, result: int, error: string)
      modifies this
      ensures old(Valid()) ==> Valid()
      ensures var added := AddValue(old(State()), groupDn, "member", userDn);
              State() == if result == AD_SUCCESS then AddValue(added, userDn, "memberOf", groupDn) else old(State())
      ensures events == old(events) +
                if result == AD_SUCCESS
                then AddEvents(old(State()), groupDn) + AddEvents(old(State()), userDn) + [AddUserToGroupComplete(groupDn, userDn)]
                else [AddUserToGroupFailed(groupDn, userDn, error)]
    {
      if result == AD_SUCCESS {
        AddAttributeInternal(groupDn, "member", userDn);
        AddAttributeInternal(userDn, "memberOf", groupDn);
        events := events + [AddUserToGroupComplete(groupDn, userDn)];
      } else {
        events := events + [AddUserToGroupFailed(groupDn, userDn, error)];
      }
    }

    /** group_remove_user: on success the member and memberOf values are removed. */
    method GroupRemoveUser(groupDn: Dn, userDn: Dn, result: int, error: string)
      modifies this
      ensures old(Valid()) ==> Valid()
      ensures var removed := RemoveValue(old(State()), groupDn, "member", userDn);
              State() == if result == AD_SUCCESS then RemoveValue(removed, userDn, "memberOf", groupDn) else old(State())
      ensures var removed := RemoveValue(old(State()), groupDn, "member", userDn);
              events == old(events) +
                if result == AD_SUCCESS
                then RemoveEvents(old(State()), groupDn, "member", userDn) + RemoveEvents(removed, userDn, "memberOf", groupDn)
                     + [GroupRemoveUserComplete(groupDn, userDn)]
                else [GroupRemoveUserFailed(groupDn, userDn, error)]
    {
      if result == AD_SUCCESS {
        RemoveAttributeInternal(groupDn, "member", userDn);
        RemoveAttributeInternal(userDn, "memberOf", groupDn);
        events := events + [GroupRemoveUserComplete(groupDn, userDn)];
      } else {
        events := events + [GroupRemoveUserFailed(groupDn, userDn, error)];
      }
    }

    /**
     * update_cache: rewrite the cached keys containing oldDn, signal dn_changed
     * by depth, reload newDn when it is loaded, rewrite the cached values
     * containing oldDn and signal attributes_changed once per touched DN. The
     * keys are visited in the order visit and the touched DNs signalled in the
     * order batch (QMap and QSet orders, which the model leaves open).
     */
    method UpdateCache(oldDn: Dn, newDn: Dn, reload: AttributeReply) returns (ghost visit: seq<Dn>, ghost batch: seq<Dn>)
      modifies this
      ensures old(Valid()) ==> Valid()
      ensures UpdatedCache(old(State()), State(), old(events), events, visit, batch, oldDn, newDn, reload)
    {
      ghost var c0, e0 := State(), events;
      var dnChanges, updatedDns;
      dnChanges, updatedDns, visit := RewriteCachedKeys(oldDn, newDn);
      ghost var keyed := State();

      // dn_changed, fewest commas first
      var sorted := SortByDepth(dnChanges);
      events := events + DnChangedEvents(sorted, updatedDns);

      // reload of the changed entry
      ghost var e1 := events;
      if newDn in attributesLoaded {
        LoadAttributes(newDn, reload);
        events := events + [AttributesChanged(newDn)];
      }
      ghost var c1, e2 := State(), events;
      assert c1 == AfterReload(c0, visit, oldDn, newDn, reload);
      assert e2 == e1 + if newDn in keyed.loaded then LoadEvents(newDn, reload) + [AttributesChanged(newDn)] else [];

      var attributeChanges := RewriteCachedValues(oldDn, newDn);
      batch := SignalAttributesChanged(attributeChanges);
      if Consistent(c0) {
        UpdateCacheConsistent(c0, visit, oldDn, newDn, reload);
      }
      assert events == e2 + AttributesChangedEvents(batch);
      ghost var p := RewriteKeys(c0, visit, oldDn, newDn);
      assert p.changes == dnChanges && p.updated == updatedDns && p.cache == keyed;
      assert e1 == e0 + DnChangedEvents(SortByDepth(p.changes), p.updated);
      ghost var dnChanged := DnChangedEvents(SortByDepth(p.changes), p.updated);
      ghost var reloaded := if newDn in p.cache.loaded then LoadEvents(newDn, reload) + [AttributesChanged(newDn)] else [];
      assert UpdateCacheEvents(c0, visit, oldDn, newDn, reload, batch) == dnChanged + reloaded + AttributesChangedEvents(batch);
      Associate(e0, dnChanged, reloaded, AttributesChangedEvents(batch));
      assert State() == UpdateCacheState(c0, visit, oldDn, newDn, reload);
      assert attributeChanges == Touched(AfterReload(c0, visit, oldDn, newDn, reload), oldDn, newDn);
    }

    /**
     * The key phase of update_cache: every cached key containing oldDn is
     * removed, or moved to its substituted form, and recorded once in
     * dnChanges with its new DN in updatedDns.
     */
    method RewriteCachedKeys(oldDn: Dn, newDn: Dn) returns (dnChanges: seq<Dn>, updatedDns: map<Dn, Dn>, ghost visit: seq<Dn>)
      modifies this
      ensures Enumerates(visit, old(attributesMap))
      ensures KeyPass(State(), dnChanges, updatedDns) == RewriteKeys(old(State()), visit, oldDn, newDn)
      ensures events == old(events)
    {
      ghost var c0 := State();
      dnChanges := [];
      updatedDns := map[];
      var remaining := attributesMap.Keys;
      visit := [];
      while remaining != {}
        invariant remaining <= c0.attributes.Keys
        invariant forall k :: k in visit <==> k in c0.attributes && k !in remaining
        invariant Distinct(visit)
        invariant KeyPass(State(), dnChanges, updatedDns) == RewriteKeys(c0, visit, oldDn, newDn)
        invariant events == old(events)
        decreases |remaining|
      {
        var dn :| dn in remaining;
        dnChanges, updatedDns := RewriteCachedKey(dn, oldDn, newDn, dnChanges, updatedDns);
        DistinctSnoc(visit, dn);
        visit := visit + [dn];
        remaining := remaining - {dn};
      }
    }

    /** One iteration of the key phase, for the cached key dn. */
    method RewriteCachedKey(dn: Dn, oldDn: Dn, newDn: Dn, changes: seq<Dn>, updated: map<Dn, Dn>)
      returns (dnChanges: seq<Dn>, updatedDns: map<Dn, Dn>)
      modifies this
      ensures KeyPass(State(), dnChanges, updatedDns) == RewriteKey(KeyPass(old(State()), changes, updated), dn, oldDn, newDn)
      ensures events == old(events)
    {
      dnChanges, updatedDns := changes, updated;
      if Contains(dn, oldDn) {
        var updatedDn := ReplaceAll(dn, oldDn, newDn);
        if oldDn != "" && newDn == "" {
          attributesMap := attributesMap - {dn};
          attributesLoaded := attributesLoaded - {dn};
        } else {
          if oldDn !in attributesMap {
            attributesMap := attributesMap[oldDn := map[]];
          }
          attributesMap := attributesMap[updatedDn := attributesMap[oldDn]];
          attributesLoaded := attributesLoaded + {updatedDn};
          attributesMap := attributesMap - {dn};
          attributesLoaded := attributesLoaded - {dn};
        }
        if dn !in dnChanges {
          dnChanges := dnChanges + [dn];
          updatedDns := updatedDns[dn := updatedDn];
        }
      }
    }

    /** The value phase of update_cache; the result is the set of touched DNs. */
    method RewriteCachedValues(oldDn: Dn, newDn: Dn) returns (attributeChanges: set<Dn>)
      modifies this
      ensures State() == RewriteValues(old(State()), oldDn, newDn)
      ensures attributeChanges == Touched(old(State()), oldDn, newDn)
      ensures events == old(events)
    {
      var entries;
      entries, attributeChanges := RewriteEntries(State(), oldDn, newDn);
      attributesMap := entries;
    }

    /** One attributes_changed per DN of the set, in an order the model leaves open. */
    method SignalAttributesChanged(attributeChanges: set<Dn>) returns (ghost batch: seq<Dn>)
      modifies this
      ensures Distinct(batch) && forall d :: d in batch <==> d in attributeChanges
      ensures State() == old(State())
      ensures events == old(events) + AttributesChangedEvents(batch)
    {
      batch := [];
      var pending := attributeChanges;
      while pending != {}
        invariant pending <= attributeChanges
        invariant forall d :: d in batch <==> d in attributeChanges && d !in pending
        invariant Distinct(batch)
        invariant State() == old(State())
        invariant events == old(events) + AttributesChangedEvents(batch)
        decreases |pending|
      {
        var dn :| dn in pending;
        events := events + [AttributesChanged(dn)];
        AttributesChangedSnoc(batch, dn);
        DistinctSnoc(batch, dn);
        batch := batch + [dn];
        pending := pending - {dn};
      }
    }

    /** delete_entry: on success the cache forgets the entry and everything below it. */
    method DeleteEntry(dn: Dn, result: int, error: string, reload: AttributeReply)
      returns (ghost visit: seq<Dn>, ghost batch: seq<Dn>)
      modifies this
      ensures old(Valid()) ==> Valid()
      ensures result == AD_SUCCESS ==>
                exists e :: UpdatedCache(old(State()), State(), old(events), e, visit, batch, dn, "", reload)
                            && events == e + [DeleteEntryComplete(dn)]
      ensures result != AD_SUCCESS ==> State() == old(State()) && events == old(events) + [DeleteEntryFailed(dn, error)]
    {
      visit, batch := [], [];
      if result == AD_SUCCESS {
        ghost var read, readEvents := State(), events;
        visit, batch := UpdateCache(dn, "", reload);
        ghost var e := events;
        assert UpdatedCache(read, State(), readEvents, e, visit, batch, dn, "", reload);
        events := events + [DeleteEntryComplete(dn)];
      } else {
        events := events + [DeleteEntryFailed(dn, error)];
      }
    }

    /**
     * move: the entry goes under newContainer keeping its first RDN; users go
     * through the client's user move, everything else through the plain move.
     */
    method Move(dn: Dn, newContainer: Dn, typeReply: AttributeReply, result: int, error: string, reload: AttributeReply)
      returns (asUser: bool, ghost visit: seq<Dn>, ghost batch: seq<Dn>)
      modifies this
      ensures old(Valid()) ==> Valid()
      ensures asUser == IsUserOf(old(State()), dn, typeReply)
      ensures var read := AfterGet(old(State()), dn, typeReply);
              var readEvents := old(events) + GetEvents(old(State()), dn, typeReply);
              var newDn := DistinguishedNames.MoveDn(dn, newContainer);
              if result == AD_SUCCESS then
                exists e :: UpdatedCache(read, State(), readEvents, e, visit, batch, dn, newDn, reload)
                            && events == e + [MoveComplete(dn, newContainer, newDn)]
              else State() == read && events == readEvents + [MoveFailed(dn, newContainer, newDn, error)]
    {
      var newDn := DistinguishedNames.MoveDn(dn, newContainer);
      asUser := HasObjectClass(dn, "user", typeReply);
      ghost var read, readEvents := State(), events;
      visit, batch := [], [];
      if result == AD_SUCCESS {
        visit, batch := UpdateCache(dn, newDn, reload);
        ghost var e := events;
        assert UpdatedCache(read, State(), readEvents, e, visit, batch, dn, newDn, reload);
        events := events + [MoveComplete(dn, newContainer, newDn)];
      } else {
        events := events + [MoveFailed(dn, newContainer, newDn, error)];
      }
    }

    /**
     * rename: the first RDN keeps its type prefix and takes the new name; users
     * and groups are renamed by name, anything else by its new RDN.
     */
    method Rename(dn: Dn, newName: string, userReply: AttributeReply, groupReply: AttributeReply,
                  result: int, error: string, reload: AttributeReply)
      returns (call: RenameCall, ghost visit: seq<Dn>, ghost batch: seq<Dn>, ghost updatedEvents: seq<Event>)
      modifies this
      ensures old(Valid()) ==> Valid()
      ensures call == RenameCallOf(old(State()), dn, newName, userReply, groupReply)
      ensures result == AD_SUCCESS ==>
                UpdatedCache(RenameRead(old(State()), dn, userReply, groupReply), State(),
                             old(events) + RenameReadEvents(old(State()), dn, userReply, groupReply),
                             updatedEvents, visit, batch, dn, DistinguishedNames.RenameDn(dn, newName), reload)
                && events == updatedEvents + [RenameComplete(dn, newName, DistinguishedNames.RenameDn(dn, newName))]
      ensures result != AD_SUCCESS ==>
                State() == RenameRead(old(State()), dn, userReply, groupReply)
                && events == old(events) + RenameReadEvents(old(State()), dn, userReply, groupReply)
                             + [RenameFailed(dn, newName, DistinguishedNames.RenameDn(dn, newName), error)]
    {
      var newDn := DistinguishedNames.RenameDn(dn, newName);
      call := ChooseRenameCall(dn, newName, userReply, groupReply);
      visit, batch, updatedEvents := FinishRename(dn, newName, newDn, result, error, reload);
    }

    /** The end of rename: on success the cache update and the completion signal, else the failure signal. */
    method FinishRename(dn: Dn, newName: string, newDn: Dn, result: int, error: string, reload: AttributeReply)
      returns (ghost visit: seq<Dn>, ghost batch: seq<Dn>, ghost updatedEvents: seq<Event>)
      modifies this
      ensures old(Valid()) ==> Valid()
      ensures result == AD_SUCCESS ==>
                UpdatedCache(old(State()), State(), old(events), updatedEvents, visit, batch, dn, newDn, reload)
                && events == updatedEvents + [RenameComplete(dn, newName, newDn)]
      ensures result != AD_SUCCESS ==>
                State() == old(State()) && events == old(events) + [RenameFailed(dn, newName, newDn, error)]
    {
      visit, batch := [], [];
      if result == AD_SUCCESS {
        visit, batch := UpdateCache(dn, newDn, reload);
        updatedEvents := events;
        events := events + [RenameComplete(dn, newName, newDn)];
      } else {
        updatedEvents := events;
        events := events + [RenameFailed(dn, newName, newDn, error)];
      }
    }

    /** The type checks of rename: is_user, and is_group only when dn is not a user. */
    method ChooseRenameCall(dn: Dn, newName: string, userReply: AttributeReply, groupReply: AttributeReply)
      returns (call: RenameCall)
      modifies this
      ensures old(Valid()) ==> Valid()
      ensures call == RenameCallOf(old(State()), dn, newName, userReply, groupReply)
      ensures State() == RenameRead(old(State()), dn, userReply, groupReply)
      ensures events == old(events) + RenameReadEvents(old(State()), dn, userReply, groupReply)
    {
      ghost var c0, e0 := State(), events;
      var isUser := HasObjectClass(dn, "user", userReply);
      if isUser {
        RenameReadOfUser(c0, dn, newName, userReply, groupReply);
        call := RenameUserCall;
      } else {
        call := ChooseNonUserCall(c0, e0, dn, newName, userReply, groupReply);
      }
      if Consistent(c0) {
        RenameReadConsistent(c0, dn, userReply, groupReply);
      }
    }

    /** The group check of rename, reached once the user check has failed. */
    method ChooseNonUserCall(ghost c0: Cache, ghost e0: seq<Event>, dn: Dn, newName: string,
                             userReply: AttributeReply, groupReply: AttributeReply)
      returns (call: RenameCall)
      requires !IsUserOf(c0, dn, userReply)
      requires State() == AfterGet(c0, dn, userReply) && events == e0 + GetEvents(c0, dn, userReply)
      modifies this
      ensures call == RenameCallOf(c0, dn, newName, userReply, groupReply)
      ensures State() == RenameRead(c0, dn, userReply, groupReply)
      ensures events == e0 + RenameReadEvents(c0, dn, userReply, groupReply)
    {
      var newRdn := DistinguishedNames.RdnPrefix(DistinguishedNames.FirstRdn(dn)) + newName;
      ghost var c1 := State();
      var isGroup := HasObjectClass(dn, "group", groupReply);
      RenameReadOfOther(c0, dn, newName, userReply, groupReply);
      Associate(e0, GetEvents(c0, dn, userReply), GetEvents(c1, dn, groupReply), []);
      call := if isGroup then RenameGroupCall else RenameRdnCall(newRdn);
    }


    /**
     * get_drop_type through the cache: three object-class reads of the dropped
     * DN, then four of the target, each answered by its own client reply.
     */
    method DropTypeOf(dn: Dn, targetDn: Dn, replies: seq<AttributeReply>) returns (drop: DropTypes.DropType)
      requires |replies| == 7
      modifies this
      ensures old(Valid()) ==> Valid()
      ensures dn == targetDn ==> drop == DropTypes.DropNone && State() == old(State()) && events == old(events)
      ensures dn != targetDn ==>
                var checks := DropChecks(dn, targetDn, replies);
                var answers := CheckAnswers(old(State()), checks);
                drop == DropTypes.GetDropType(dn, targetDn, DropTypes.ObjectKinds(answers[0], answers[1], answers[2], false),
                                              DropTypes.ObjectKinds(answers[3], answers[4], answers[5], answers[6]))
                && State() == AfterChecks(old(State()), checks)
                && events == old(events) + CheckEvents(old(State()), checks)
    {
      if dn == targetDn {
        return DropTypes.DropNone;
      }
      ghost var c0, e0 := State(), events;
      ghost var checks := DropChecks(dn, targetDn, replies);
      assert checks[..0] == [];
      var droppedIsUser := ClassCheckStep(c0, e0, checks, 0, dn, "user", replies[0]);
      var droppedIsGroup := ClassCheckStep(c0, e0, checks, 1, dn, "group", replies[1]);
      var droppedIsOu := ClassCheckStep(c0, e0, checks, 2, dn, "organizationalUnit", replies[2]);
      var targetIsUser := ClassCheckStep(c0, e0, checks, 3, targetDn, "user", replies[3]);
      var targetIsGroup := ClassCheckStep(c0, e0, checks, 4, targetDn, "group", replies[4]);
      var targetIsOu := ClassCheckStep(c0, e0, checks, 5, targetDn, "organizationalUnit", replies[5]);
      var targetIsContainer := ClassCheckStep(c0, e0, checks, 6, targetDn, "container", replies[6]);
      assert checks[..7] == checks;
      drop := DropTypes.GetDropType(dn, targetDn,
        DropTypes.ObjectKinds(droppedIsUser, droppedIsGroup, droppedIsOu, false),
        DropTypes.ObjectKinds(targetIsUser, targetIsGroup, targetIsOu, targetIsContainer));
      if Consistent(c0) {
        ChecksConsistent(c0, checks);
      }
    }

    /** One is_* call of a run: the call checks[i], made once the calls before it are done. */
    method ClassCheckStep(ghost c0: Cache, ghost e0: seq<Event>, ghost checks: seq<ClassCheck>, ghost i: nat,
                          dn: Dn, objectClass: string, reply: AttributeReply) returns (present: bool)
      requires i < |checks| && checks[i] == ClassCheck(dn, objectClass, reply)
      requires State() == AfterChecks(c0, checks[..i]) && events == e0 + CheckEvents(c0, checks[..i])
      modifies this
      ensures present == CheckAnswers(c0, checks)[i]
      ensures State() == AfterChecks(c0, checks[..i + 1])
      ensures events == e0 + CheckEvents(c0, checks[..i + 1])
    {
      present := HasObjectClass(dn, objectClass, reply);
      ChecksSnoc(c0, checks[..i], checks[i]);
      assert checks[..i] + [checks[i]] == checks[..i + 1];
      ChecksSplit(c0, checks[..i + 1], checks[i + 1..]);
      assert checks[..i + 1] + checks[i + 1..] == checks;
    }
  }

  lemma Associate<T>(a: seq<T>, b: seq<T>, c: seq<T>, d: seq<T>)
    ensures a + b + c + d == a + (b + c + d)
  {
  }

  lemma DistinctSnoc<T>(s: seq<T>, x: T)
    requires Distinct(s) && x !in s
    ensures Distinct(s + [x])
  {
  }

  lemma AttributesChangedSnoc(batch: seq<Dn>, dn: Dn)
    ensures AttributesChangedEvents(batch + [dn]) == AttributesChangedEvents(batch) + [AttributesChanged(dn)]
  {
    var a := AttributesChangedEvents(batch + [dn]);
    var b := AttributesChangedEvents(batch) + [AttributesChanged(dn)];
    assert |a| == |b|;
    assert forall i :: 0 <= i < |a| ==> a[i] == b[i];
  }
}
