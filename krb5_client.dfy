/**
 * The Kerberos ticket-cache bookkeeping of the directory client: for every
 * principal with a credential cache it keeps the ticket-granting ticket's
 * data and the cache handle, remembers the default and the current
 * principal, and releases what its library calls acquired.
 *
 * Every call into the Kerberos library is a parameter: its error code
 * (0 for success) and whatever it returns. The clock is the parameter `now`.
 * The releases made by cleanup, load_cache_data and kinit are recorded in a
 * ghost log, so that for those operations "what was acquired is released,
 * and only once" can be stated; the principals compared by caches_are_equal
 * and the cache-collection cursor are not logged.
 */
module Krb5 {

  /** A credential cache handle; 0 is the null handle. */
  type Handle = nat

  const NULL_HANDLE: Handle := 0

  // ------------------------------------------------------------ ticket state

  datatype TgtState = Active | Expired | Outdated | Invalid

  /** The ticket times of section 5.3 of RFC 4120, in seconds since the epoch. */
  datatype Times = Times(starttime: int, endtime: int, renewTill: int)

  /** A date-time field: unset (an invalid date-time) or a moment in seconds since the epoch. */
  datatype Moment = Unset | At(secs: int)

  datatype TgtData = TgtData(state: TgtState, principal: string, realm: string,
                             starts: Moment, expires: Moment, renewUntil: Moment)

  /** The entry of a principal nothing is known about. */
  const UNKNOWN_TGT: TgtData := TgtData(Invalid, "", "", Unset, Unset, Unset)

  /**
   * tgt_state_from_creds: past the renewal limit the ticket is outdated;
   * otherwise past its end time it is expired (and can be renewed);
   * otherwise it is active. The comparisons are strict.
   */
  function TgtStateFromCreds(times: Times, now: int): (state: TgtState)
    ensures state == Outdated <==> now > times.renewTill
    ensures state == Expired <==> now <= times.renewTill && now > times.endtime
    ensures state == Active <==> now <= times.renewTill && now <= times.endtime
    ensures state != Invalid
  {
    if now > times.renewTill then Outdated
    else if now > times.endtime then Expired
    else Active
  }

  /** A ticket is still active at its very end time, and merely expired at its renewal limit. */
  lemma TgtStateBoundaries(times: Times)
    requires times.endtime < times.renewTill
    ensures TgtStateFromCreds(times, times.endtime) == Active
    ensures TgtStateFromCreds(times, times.renewTill) == Expired
    ensures TgtStateFromCreds(times, times.renewTill + 1) == Outdated
  {
  }

  /** As time passes a ticket only moves from active to expired to outdated. */
  lemma TgtStateMonotonic(times: Times, now: int, later: int)
    requires now <= later
    ensures TgtStateFromCreds(times, now) == Outdated ==> TgtStateFromCreds(times, later) == Outdated
    ensures TgtStateFromCreds(times, later) == Active ==> TgtStateFromCreds(times, now) == Active
  {
  }

  // --------------------------------------------------------------- resources

  /** Where a principal or a credentials structure was obtained. */
  datatype Site = InKinit | InLoadCacheData | InRefreshTgt

  /** The resources the client releases: cache handles, credentials, principals, unparsed names. */
  datatype Resource = Ccache(handle: Handle) | Creds(site: Site) | Principal(site: Site) | UnparsedName

  /**
   * cleanup: each argument that is not null is released once, in the order
   * cache, credentials, principal, unparsed name.
   */
  function Releases(site: Site, ccache: Handle, creds: bool, principal: bool, unparsed: bool): (out: seq<Resource>)
    ensures forall r :: r in out <==>
              (r == Ccache(ccache) && ccache != NULL_HANDLE) || (r == Creds(site) && creds)
              || (r == Principal(site) && principal) || (r == UnparsedName && unparsed)
    ensures forall i, j :: 0 <= i < j < |out| ==> out[i] != out[j]
  {
    (if ccache != NULL_HANDLE then [Ccache(ccache)] else [])
    + (if creds then [Creds(site)] else [])
    + (if principal then [Principal(site)] else [])
    + (if unparsed then [UnparsedName] else [])
  }

  // ------------------------------------------------------------ client state

  /** The bookkeeping of the client: current and default principal, ticket data and cache handle per principal. */
  datatype ClientState = ClientState(curr: string, def: string, tgts: map<string, TgtData>, caches: map<string, Handle>)

  /**
   * Both maps are filled together under the principal's name; every stored
   * ticket was classified; a default principal, once set, has a cache.
   */
  predicate Valid(s: ClientState)
  {
    && s.tgts.Keys == s.caches.Keys
    && (forall p :: p in s.tgts ==> s.tgts[p].principal == p && s.tgts[p].state != Invalid)
    && (s.def != "" ==> s.def in s.caches)
  }

  /** tgt_data: the stored entry, or a default entry whose state is Invalid. */
  function TgtDataOf(s: ClientState, principal: string): (data: TgtData)
    ensures principal in s.tgts ==> data == s.tgts[principal]
    ensures principal !in s.tgts ==> data == UNKNOWN_TGT
  {
    if principal in s.tgts then s.tgts[principal] else UNKNOWN_TGT
  }

  /** In a valid state a principal has a cache exactly when its ticket data is not Invalid. */
  lemma HasCacheIffKnownTgt(s: ClientState, principal: string)
    requires Valid(s)
    ensures principal in s.caches <==> TgtDataOf(s, principal).state != Invalid
    ensures principal in s.caches ==> TgtDataOf(s, principal).principal == principal
  {
  }

  // --------------------------------------------------------- load_cache_data

  /** The library's answers while reading one cache. */
  datatype CacheReply = CacheReply(getPrincipal: int, unparse: int, buildServer: int, retrieve: int,
                                   principal: string, realm: string, times: Times)

  predicate CacheLoads(r: CacheReply)
  {
    r.getPrincipal == 0 && r.unparse == 0 && r.buildServer == 0 && r.retrieve == 0
  }

  /** The ticket data read from a cache whose reads succeeded. */
  function TgtDataFrom(r: CacheReply, now: int): (data: TgtData)
    ensures data.principal == r.principal && data.state != Invalid
    ensures data.expires == At(r.times.endtime) && data.renewUntil == At(r.times.renewTill)
  {
    TgtData(TgtStateFromCreds(r.times, now), r.principal, r.realm,
            At(r.times.starttime), At(r.times.endtime), At(r.times.renewTill))
  }

  /**
   * load_cache_data: if every read succeeds, the ticket data and the handle
   * are stored under the cache's principal, which becomes the default when
   * is_default holds; on any failure nothing changes.
   */
  function LoadCacheDataState(s: ClientState, h: Handle, isDefault: bool, r: CacheReply, now: int): ClientState
  {
    if !CacheLoads(r) then s
    else ClientState(s.curr, if isDefault then r.principal else s.def,
                     s.tgts[r.principal := TgtDataFrom(r, now)], s.caches[r.principal := h])
  }

  /**
   * What load_cache_data releases: on a failure the cache handle with the
   * principal, and, once the name was unparsed, that name and the
   * credentials; on success the same except the handle, which is kept.
   * The principal is passed to the release even when reading it failed.
   */
  function LoadCacheDataReleases(h: Handle, r: CacheReply): seq<Resource>
  {
    if r.getPrincipal != 0 || r.unparse != 0 then Releases(InLoadCacheData, h, false, true, false)
    else if r.buildServer != 0 || r.retrieve != 0 then [UnparsedName] + Releases(InLoadCacheData, h, true, true, false)
    else [UnparsedName] + Releases(InLoadCacheData, NULL_HANDLE, true, true, false)
  }

  /** What load_cache_data owns: the handle it is given and each resource a successful call hands it. */
  function LoadCacheDataAcquired(h: Handle, r: CacheReply): seq<Resource>
  {
    (if h != NULL_HANDLE then [Ccache(h)] else [])
    + (if r.getPrincipal == 0 then [Principal(InLoadCacheData)] else [])
    + (if r.getPrincipal == 0 && r.unparse == 0 then [UnparsedName, Creds(InLoadCacheData)] else [])
  }

  /** No resource occurs twice. */
  predicate Distinct(rs: seq<Resource>)
  {
    forall i, j :: 0 <= i < j < |rs| ==> rs[i] != rs[j]
  }

  /**
   * Once the principal was read, load_cache_data releases everything it
   * owns, each once, except the handle of a cache it stored.
   */
  lemma LoadCacheDataReleasesAcquired(h: Handle, r: CacheReply)
    requires r.getPrincipal == 0
    ensures Distinct(LoadCacheDataReleases(h, r))
    ensures !CacheLoads(r) ==>
              forall x :: x in LoadCacheDataReleases(h, r) <==> x in LoadCacheDataAcquired(h, r)
    ensures CacheLoads(r) ==>
              forall x :: x in LoadCacheDataReleases(h, r) <==> x in LoadCacheDataAcquired(h, r) && x != Ccache(h)
  {
    var rel := LoadCacheDataReleases(h, r);
    var tail := Releases(InLoadCacheData, if CacheLoads(r) then NULL_HANDLE else h, true, true, false);
    if r.unparse == 0 {
      assert rel == [UnparsedName] + tail;
      assert UnparsedName !in tail;
    }
  }

  /**
   * When reading the principal fails, the principal variable, which was
   * never filled, is released anyway (the cache handle with it).
   */
  lemma LoadCacheDataReleasesUnreadPrincipal(h: Handle, r: CacheReply)
    requires r.getPrincipal != 0
    ensures Principal(InLoadCacheData) in LoadCacheDataReleases(h, r)
    ensures Principal(InLoadCacheData) !in LoadCacheDataAcquired(h, r)
  {
  }

  /** load_cache_data keeps the bookkeeping valid; on success the two maps agree at the principal. */
  lemma LoadCacheDataValid(s: ClientState, h: Handle, isDefault: bool, r: CacheReply, now: int)
    requires Valid(s)
    ensures var t := LoadCacheDataState(s, h, isDefault, r, now);
            Valid(t) && t.curr == s.curr
            && (CacheLoads(r) ==> t.caches[r.principal] == h && t.tgts[r.principal] == TgtDataFrom(r, now)
                                  && t.tgts.Keys == s.tgts.Keys + {r.principal})
            && (CacheLoads(r) && isDefault ==> t.def == r.principal)
            && (!CacheLoads(r) || !isDefault ==> t.def == s.def)
  {
  }

  // ------------------------------------------------------------- load_caches

  /**
   * A cache the cursor yields and the library's answers while reading it.
   * When the default cache did not load, load_cache_data has already closed
   * it, and caches_are_equal reads that closed handle; what it answers then
   * is the parameter closedDefaultAnswer.
   */
  datatype CursorEntry = CursorEntry(handle: Handle, reply: CacheReply, closedDefaultAnswer: bool)

  /**
   * The library's answers while load_caches walks the cache collection:
   * whether it has content, the default cache, the cursor, and each cache the
   * cursor yields.
   */
  datatype CollectionReplies = CollectionReplies(haveContent: bool, defaultRes: int, defaultHandle: Handle,
                                                 defaultReply: CacheReply, cursorRes: int,
                                                 entries: seq<CursorEntry>)

  /** caches_are_equal: both principals can be read and they are the same. */
  predicate CachesAreEqual(def: CacheReply, other: CacheReply)
  {
    def.getPrincipal == 0 && other.getPrincipal == 0 && def.principal == other.principal
  }

  /** caches_are_equal(def_ccache, ccache) as load_caches calls it: on the open default, or on the closed one. */
  predicate EqualsDefault(def: CacheReply, e: CursorEntry)
  {
    if CacheLoads(def) then CachesAreEqual(def, e.reply) else e.closedDefaultAnswer
  }

  /** One turn of the cursor loop: a cache equal to the default is closed, any other is loaded as non-default. */
  function LoadEntry(t: ClientState, def: CacheReply, e: CursorEntry, now: int): ClientState
  {
    if EqualsDefault(def, e) then t else LoadCacheDataState(t, e.handle, false, e.reply, now)
  }

  function EntryReleases(def: CacheReply, e: CursorEntry): seq<Resource>
  {
    if EqualsDefault(def, e) then [Ccache(e.handle)] else LoadCacheDataReleases(e.handle, e.reply)
  }

  /** The cursor loop over the caches it yields. */
  function LoadEntries(s: ClientState, def: CacheReply, entries: seq<CursorEntry>, now: int): ClientState
  {
    if |entries| == 0 then s
    else LoadEntry(LoadEntries(s, def, entries[..|entries| - 1], now), def, entries[|entries| - 1], now)
  }

  function EntriesReleases(def: CacheReply, entries: seq<CursorEntry>): seq<Resource>
  {
    if |entries| == 0 then []
    else EntriesReleases(def, entries[..|entries| - 1]) + EntryReleases(def, entries[|entries| - 1])
  }

  lemma LoadEntriesSnoc(s: ClientState, def: CacheReply, entries: seq<CursorEntry>, i: nat, now: int)
    requires i < |entries|
    ensures LoadEntries(s, def, entries[..i + 1], now) == LoadEntry(LoadEntries(s, def, entries[..i], now), def, entries[i], now)
    ensures EntriesReleases(def, entries[..i + 1]) == EntriesReleases(def, entries[..i]) + EntryReleases(def, entries[i])
  {
    assert entries[..i + 1][..i] == entries[..i];
  }

  /**
   * load_caches: nothing when the collection is empty or the default cache
   * cannot be had; otherwise the default cache is loaded as default, then
   * (if a cursor can be opened) every other cache.
   */
  function LoadCachesState(s: ClientState, c: CollectionReplies, now: int): (t: ClientState)
    ensures !c.haveContent || c.defaultRes != 0 ==> t == s
  {
    if !c.haveContent || c.defaultRes != 0 then s
    else
      var s1 := LoadCacheDataState(s, c.defaultHandle, true, c.defaultReply, now);
      if c.cursorRes != 0 then s1 else LoadEntries(s1, c.defaultReply, c.entries, now)
  }

  /** What load_caches releases; when the default cache cannot be had, its handle is closed as it is. */
  function LoadCachesReleases(c: CollectionReplies): (out: seq<Resource>)
    ensures !c.haveContent ==> out == []
  {
    if !c.haveContent then []
    else if c.defaultRes != 0 then [Ccache(c.defaultHandle)]
    else
      LoadCacheDataReleases(c.defaultHandle, c.defaultReply)
      + (if c.cursorRes != 0 then [] else EntriesReleases(c.defaultReply, c.entries))
  }

  /**
   * With the default cache loaded and open, the cursor loop never changes the
   * default or the current principal, nor the entry of the default's principal.
   */
  lemma {:induction false} LoadEntriesKeepDefault(s: ClientState, def: CacheReply, entries: seq<CursorEntry>, now: int)
    requires Valid(s) && CacheLoads(def)
    ensures var t := LoadEntries(s, def, entries, now);
            Valid(t) && t.def == s.def && t.curr == s.curr
            && (def.principal in s.caches ==> def.principal in t.caches
                                              && t.caches[def.principal] == s.caches[def.principal]
                                              && t.tgts[def.principal] == s.tgts[def.principal])
  {
    if |entries| > 0 {
      var e := entries[|entries| - 1];
      var t := LoadEntries(s, def, entries[..|entries| - 1], now);
      LoadEntriesKeepDefault(s, def, entries[..|entries| - 1], now);
      LoadCacheDataValid(t, e.handle, false, e.reply, now);
      assert LoadEntries(s, def, entries, now) == LoadEntry(t, def, e, now);
    }
  }

  /**
   * A cache whose principal is the default's is closed by the cursor loop;
   * every cache the loop loads has another principal.
   */
  lemma {:induction false} LoadEntriesClosesDuplicates(def: CacheReply, entries: seq<CursorEntry>, i: nat)
    requires i < |entries| && EqualsDefault(def, entries[i])
    ensures Ccache(entries[i].handle) in EntriesReleases(def, entries)
  {
    if i < |entries| - 1 {
      LoadEntriesClosesDuplicates(def, entries[..|entries| - 1], i);
    }
    assert EntriesReleases(def, entries)
           == EntriesReleases(def, entries[..|entries| - 1]) + EntryReleases(def, entries[|entries| - 1]);
  }

  /**
   * After load_caches, when the default cache could be read, its principal
   * is the default principal and keeps the default cache's handle and ticket
   * data, whatever other caches with that principal the collection holds.
   */
  lemma LoadCachesKeepsDefault(s: ClientState, c: CollectionReplies, now: int)
    requires Valid(s) && c.haveContent && c.defaultRes == 0 && CacheLoads(c.defaultReply)
    ensures var t := LoadCachesState(s, c, now);
            Valid(t) && t.def == c.defaultReply.principal && t.curr == s.curr
            && c.defaultReply.principal in t.caches && t.caches[c.defaultReply.principal] == c.defaultHandle
            && t.tgts[c.defaultReply.principal] == TgtDataFrom(c.defaultReply, now)
  {
    var s1 := LoadCacheDataState(s, c.defaultHandle, true, c.defaultReply, now);
    LoadCacheDataValid(s, c.defaultHandle, true, c.defaultReply, now);
    LoadEntriesKeepDefault(s1, c.defaultReply, c.entries, now);
  }

  /** load_caches keeps the bookkeeping valid. */
  lemma LoadCachesValid(s: ClientState, c: CollectionReplies, now: int)
    requires Valid(s)
    ensures Valid(LoadCachesState(s, c, now)) && LoadCachesState(s, c, now).curr == s.curr
  {
    if c.haveContent && c.defaultRes == 0 {
      var s1 := LoadCacheDataState(s, c.defaultHandle, true, c.defaultReply, now);
      LoadCacheDataValid(s, c.defaultHandle, true, c.defaultReply, now);
      if c.cursorRes == 0 {
        if CacheLoads(c.defaultReply) {
          LoadEntriesKeepDefault(s1, c.defaultReply, c.entries, now);
        } else {
          LoadEntriesValid(s1, c.defaultReply, c.entries, now);
        }
      }
    }
  }

  /**
   * principal_cache_map[principal] = ccache overwrites: of two other caches
   * with the same principal, both loading, the map keeps the later handle,
   * and the earlier one is neither kept nor closed by the loop.
   */
  lemma DuplicatePrincipalHandleLost(s: ClientState, def: CacheReply, first: CursorEntry, second: CursorEntry, now: int)
    requires Valid(s) && !EqualsDefault(def, first) && !EqualsDefault(def, second)
    requires CacheLoads(first.reply) && CacheLoads(second.reply) && first.reply.principal == second.reply.principal
    requires first.handle != second.handle && first.handle != NULL_HANDLE && first.handle !in s.caches.Values
    ensures var t := LoadEntries(s, def, [first, second], now);
            t.caches[first.reply.principal] == second.handle
            && first.handle !in t.caches.Values
            && Ccache(first.handle) !in EntriesReleases(def, [first, second])
  {
    var entries := [first, second];
    assert entries[..1] == [first] && [first][..0] == [];
    var t1 := LoadCacheDataState(s, first.handle, false, first.reply, now);
    assert LoadEntries(s, def, [first], now) == t1;
    assert LoadEntries(s, def, entries, now) == LoadCacheDataState(t1, second.handle, false, second.reply, now);
    LoadCacheDataValid(s, first.handle, false, first.reply, now);
    LoadCacheDataValid(t1, second.handle, false, second.reply, now);
    LoadCacheDataReleasesAcquired(first.handle, first.reply);
    LoadCacheDataReleasesAcquired(second.handle, second.reply);
    assert EntriesReleases(def, [first]) == LoadCacheDataReleases(first.handle, first.reply);
    assert EntriesReleases(def, entries) == EntriesReleases(def, [first]) + LoadCacheDataReleases(second.handle, second.reply);
  }

  lemma {:induction false} LoadEntriesValid(s: ClientState, def: CacheReply, entries: seq<CursorEntry>, now: int)
    requires Valid(s)
    ensures Valid(LoadEntries(s, def, entries, now)) && LoadEntries(s, def, entries, now).curr == s.curr
  {
    if |entries| > 0 {
      var e := entries[|entries| - 1];
      var t := LoadEntries(s, def, entries[..|entries| - 1], now);
      LoadEntriesValid(s, def, entries[..|entries| - 1], now);
      LoadCacheDataValid(t, e.handle, false, e.reply, now);
      assert LoadEntries(s, def, entries, now) == LoadEntry(t, def, e, now);
    }
  }

  // ------------------------------------------------------------------- kinit

  /** The library's answers during kinit, and the reads of the new cache afterwards. */
  datatype KinitReplies = KinitReplies(parse: int, initCreds: int, resolve: int, handle: Handle,
                                       initialize: int, store: int, switch: int, cache: CacheReply)

  /** The outcome of an operation: success, or the error raised with the library's error code (0 for none). */
  datatype Status = Ok | Failed(error: string, code: int)

  const AUTHENTICATION_FAILED := "Authentication failed"
  const REFRESH_FAILED := "Failed to refresh TGT"

  /**
   * The error code of the first kinit step that fails, or 0: parsing the
   * name, getting initial credentials, resolving, initialising and storing
   * into the cache, and, when there is no default principal yet, switching
   * to it.
   */
  function KinitError(s: ClientState, k: KinitReplies): int
  {
    if k.parse != 0 then k.parse
    else if k.initCreds != 0 then k.initCreds
    else if k.resolve != 0 then k.resolve
    else if k.initialize != 0 then k.initialize
    else if k.store != 0 then k.store
    else if s.def == "" && k.switch != 0 then k.switch
    else 0
  }

  function KinitStatus(s: ClientState, k: KinitReplies): (status: Status)
    ensures status == Ok <==> KinitError(s, k) == 0
    ensures status != Ok ==> status.error == AUTHENTICATION_FAILED
  {
    if KinitError(s, k) != 0 then Failed(AUTHENTICATION_FAILED, KinitError(s, k)) else Ok
  }

  /**
   * kinit: on failure nothing changes. Without a default principal the new
   * cache is loaded as the default and the current principal stays as it
   * was; otherwise it is loaded as non-default and the principal becomes
   * the current one.
   */
  function KinitState(s: ClientState, principal: string, k: KinitReplies, now: int): ClientState
  {
    if KinitError(s, k) != 0 then s
    else if s.def == "" then LoadCacheDataState(s, k.handle, true, k.cache, now)
    else LoadCacheDataState(s, k.handle, false, k.cache, now).(curr := principal)
  }

  /** What kinit releases: on failure what cleanup is given at that step; on success what load_cache_data releases. */
  function KinitReleases(s: ClientState, k: KinitReplies): seq<Resource>
  {
    if k.parse != 0 then []
    else if k.initCreds != 0 then Releases(InKinit, NULL_HANDLE, true, true, false)
    else if KinitError(s, k) != 0 then Releases(InKinit, k.handle, true, true, false)
    else LoadCacheDataReleases(k.handle, k.cache)
  }

  /** What kinit itself owns when it stops: the parsed principal, the credentials, the resolved cache. */
  function KinitAcquired(s: ClientState, k: KinitReplies): seq<Resource>
  {
    if k.parse != 0 then []
    else if k.initCreds != 0 || k.resolve != 0 then [Principal(InKinit), Creds(InKinit)]
    else [Principal(InKinit), Creds(InKinit), Ccache(k.handle)]
  }

  /**
   * A failing kinit releases each resource at most once. Failing at any
   * step but the resolution, it releases exactly what it acquired; a failed
   * resolution still passes the handle variable to the release, which then
   * closes a cache that was never opened unless the variable is null.
   */
  lemma KinitFailureReleasesAcquired(s: ClientState, k: KinitReplies)
    requires KinitError(s, k) != 0
    ensures Distinct(KinitReleases(s, k))
    ensures k.parse == 0 && k.initCreds == 0 && k.resolve != 0 && k.handle != NULL_HANDLE ==>
              Ccache(k.handle) in KinitReleases(s, k) && Ccache(k.handle) !in KinitAcquired(s, k)
    ensures !(k.parse == 0 && k.initCreds == 0 && k.resolve != 0) && k.handle != NULL_HANDLE ==>
              forall x :: x in KinitReleases(s, k) <==> x in KinitAcquired(s, k)
  {
  }

  /** A successful kinit never releases the principal and credentials it obtained itself. */
  lemma KinitSuccessKeepsItsCredentials(s: ClientState, k: KinitReplies)
    requires KinitError(s, k) == 0
    ensures Principal(InKinit) in KinitAcquired(s, k) && Principal(InKinit) !in KinitReleases(s, k)
    ensures Creds(InKinit) in KinitAcquired(s, k) && Creds(InKinit) !in KinitReleases(s, k)
  {
  }

  /** kinit keeps the bookkeeping valid; its current principal is set exactly when a default existed. */
  lemma KinitValid(s: ClientState, principal: string, k: KinitReplies, now: int)
    requires Valid(s)
    ensures var t := KinitState(s, principal, k, now);
            Valid(t)
            && (KinitError(s, k) == 0 && s.def != "" ==> t.curr == principal && t.def == s.def)
            && (s.def == "" ==> t.curr == s.curr)
            && (KinitError(s, k) == 0 && s.def == "" && CacheLoads(k.cache) ==> t.def == k.cache.principal)
  {
    LoadCacheDataValid(s, k.handle, s.def == "", k.cache, now);
  }

  /** The handles of the given principals, closed in that order. */
  function ClosedHandles(caches: map<string, Handle>, order: seq<string>): seq<Resource>
    requires forall p :: p in order ==> p in caches
  {
    if |order| == 0 then [] else ClosedHandles(caches, order[..|order| - 1]) + [Ccache(caches[order[|order| - 1]])]
  }

  lemma Associate(a: seq<Resource>, b: seq<Resource>, c: seq<Resource>)
    ensures a + b + c == a + (b + c)
  {
  }

  // --------------------------------------------------------------- the client

  /** Krb5Client: the bookkeeping fields, and a ghost log of every release. */
  class Krb5Client {
    var currPrincipal: string
    var defPrincipal: string
    var principalTgtMap: map<string, TgtData>
    var principalCacheMap: map<string, Handle>
    var useDefaultCache: bool
    ghost var released: seq<Resource>

    function State(): ClientState
      reads this
    {
      ClientState(currPrincipal, defPrincipal, principalTgtMap, principalCacheMap)
    }

    /** The constructor: empty bookkeeping, then load_caches. */
    constructor (useDefault: bool, c: CollectionReplies, now: int)
      ensures State() == LoadCachesState(ClientState("", "", map[], map[]), c, now)
      ensures Valid(State()) && useDefaultCache == useDefault
      ensures released == LoadCachesReleases(c)
    {
      currPrincipal := "";
      defPrincipal := "";
      principalTgtMap := map[];
      principalCacheMap := map[];
      useDefaultCache := useDefault;
      released := [];
      new;
      LoadCaches(c, now);
      LoadCachesValid(ClientState("", "", map[], map[]), c, now);
    }

    /** cleanup: release each non-null resource it is given. */
    method Cleanup(site: Site, ccache: Handle, creds: bool, principal: bool, unparsed: bool)
      modifies this`released
      ensures released == old(released) + Releases(site, ccache, creds, principal, unparsed)
    {
      released := released + Releases(site, ccache, creds, principal, unparsed);
    }

    method LoadCacheData(ccache: Handle, isDefault: bool, r: CacheReply, now: int)
      modifies this
      ensures State() == LoadCacheDataState(old(State()), ccache, isDefault, r, now)
      ensures released == old(released) + LoadCacheDataReleases(ccache, r)
      ensures useDefaultCache == old(useDefaultCache)
    {
      if r.getPrincipal != 0 {
        Cleanup(InLoadCacheData, ccache, false, true, false);
        return;
      }
      if r.unparse != 0 {
        Cleanup(InLoadCacheData, ccache, false, true, false);
        return;
      }
      var principal := r.principal;
      released := released + [UnparsedName];
      if r.buildServer != 0 || r.retrieve != 0 {
        Cleanup(InLoadCacheData, ccache, true, true, false);
        Associate(old(released), [UnparsedName], Releases(InLoadCacheData, ccache, true, true, false));
        return;
      }
      if isDefault {
        defPrincipal := principal;
      }
      var data := TgtData(TgtStateFromCreds(r.times, now), principal, r.realm,
                          At(r.times.starttime), At(r.times.endtime), At(r.times.renewTill));
      principalTgtMap := principalTgtMap[principal := data];
      principalCacheMap := principalCacheMap[principal := ccache];
      Cleanup(InLoadCacheData, NULL_HANDLE, true, true, false);
      Associate(old(released), [UnparsedName], Releases(InLoadCacheData, NULL_HANDLE, true, true, false));
    }

    /** load_caches, with the cursor loop over the other caches of the collection. */
    method LoadCaches(c: CollectionReplies, now: int)
      modifies this
      ensures State() == LoadCachesState(old(State()), c, now)
      ensures released == old(released) + LoadCachesReleases(c)
      ensures useDefaultCache == old(useDefaultCache)
    {
      if !c.haveContent {
        return;
      }
      if c.defaultRes != 0 {
        released := released + [Ccache(c.defaultHandle)];
        return;
      }
      LoadCacheData(c.defaultHandle, true, c.defaultReply, now);
      if c.cursorRes != 0 {
        assert released == old(released) + LoadCacheDataReleases(c.defaultHandle, c.defaultReply) + [];
        return;
      }
      LoadOtherCaches(c.defaultReply, c.entries, now);
      Associate(old(released), LoadCacheDataReleases(c.defaultHandle, c.defaultReply),
                EntriesReleases(c.defaultReply, c.entries));
    }

    /** The cursor loop of load_caches. */
    method LoadOtherCaches(def: CacheReply, entries: seq<CursorEntry>, now: int)
      modifies this
      ensures State() == LoadEntries(old(State()), def, entries, now)
      ensures released == old(released) + EntriesReleases(def, entries)
      ensures useDefaultCache == old(useDefaultCache)
    {
      var i := 0;
      while i < |entries|
        invariant 0 <= i <= |entries|
        invariant State() == LoadEntries(old(State()), def, entries[..i], now)
        invariant released == old(released) + EntriesReleases(def, entries[..i])
        invariant useDefaultCache == old(useDefaultCache)
      {
        var e := entries[i];
        LoadEntriesSnoc(old(State()), def, entries, i, now);
        ghost var rel := released;
        if EqualsDefault(def, e) {
          released := released + [Ccache(e.handle)];
        } else {
          LoadCacheData(e.handle, false, e.reply, now);
        }
        assert released == rel + EntryReleases(def, e);
        Associate(old(released), EntriesReleases(def, entries[..i]), EntryReleases(def, e));
        i := i + 1;
      }
      assert entries[..i] == entries;
    }

    /** kinit: obtain a ticket with the password, store it in a new cache and load that cache. */
    method Kinit(principal: string, k: KinitReplies, now: int) returns (status: Status)
      modifies this
      ensures status == KinitStatus(old(State()), k)
      ensures State() == KinitState(old(State()), principal, k, now)
      ensures released == old(released) + KinitReleases(old(State()), k)
      ensures useDefaultCache == old(useDefaultCache)
    {
      if k.parse != 0 {
        return Failed(AUTHENTICATION_FAILED, k.parse);
      }
      if k.initCreds != 0 {
        Cleanup(InKinit, NULL_HANDLE, true, true, false);
        return Failed(AUTHENTICATION_FAILED, k.initCreds);
      }
      var ccache := k.handle;
      if k.resolve != 0 {
        Cleanup(InKinit, ccache, true, true, false);
        return Failed(AUTHENTICATION_FAILED, k.resolve);
      }
      if k.initialize != 0 {
        Cleanup(InKinit, ccache, true, true, false);
        return Failed(AUTHENTICATION_FAILED, k.initialize);
      }
      if k.store != 0 {
        Cleanup(InKinit, ccache, true, true, false);
        return Failed(AUTHENTICATION_FAILED, k.store);
      }
      if defPrincipal == "" {
        if k.switch != 0 {
          Cleanup(InKinit, ccache, true, true, false);
          return Failed(AUTHENTICATION_FAILED, k.switch);
        }
        LoadCacheData(ccache, true, k.cache, now);
        return Ok;
      }
      LoadCacheData(ccache, false, k.cache, now);
      currPrincipal := principal;
      return Ok;
    }

    /** authenticate: nothing happens for the current principal; otherwise kinit. */
    method Authenticate(principal: string, k: KinitReplies, now: int) returns (status: Status)
      modifies this
      ensures principal == old(currPrincipal) ==> status == Ok && State() == old(State()) && released == old(released)
      ensures principal != old(currPrincipal) ==>
                status == KinitStatus(old(State()), k) && State() == KinitState(old(State()), principal, k, now)
                && released == old(released) + KinitReleases(old(State()), k)
      ensures Valid(old(State())) ==> Valid(State())
    {
      if Valid(State()) {
        KinitValid(State(), principal, k, now);
      }
      if principal == currPrincipal {
        return Ok;
      }
      status := Kinit(principal, k, now);
    }

    /**
     * refresh_tgt: a principal without a cache handle is an error, and so is
     * a failed renewal or a failed store of the renewed credentials (whose
     * contents are then released). The bookkeeping is not updated.
     */
    method RefreshTgt(principal: string, renew: int, store: int) returns (status: Status)
      modifies this`released
      ensures principal !in principalCacheMap || principalCacheMap[principal] == NULL_HANDLE ==>
                status == Failed(REFRESH_FAILED, 0) && released == old(released)
      ensures principal in principalCacheMap && principalCacheMap[principal] != NULL_HANDLE ==>
                status == (if renew != 0 then Failed(REFRESH_FAILED, renew)
                           else if store != 0 then Failed(REFRESH_FAILED, store) else Ok)
                && released == old(released) + (if status == Ok then [] else [Creds(InRefreshTgt)])
    {
      var ccache := if principal in principalCacheMap then principalCacheMap[principal] else NULL_HANDLE;
      if ccache == NULL_HANDLE {
        return Failed(REFRESH_FAILED, 0);
      }
      var code := if renew != 0 then renew else store;
      if code != 0 {
        released := released + [Creds(InRefreshTgt)];
        return Failed(REFRESH_FAILED, code);
      }
      return Ok;
    }

    /** tgt_data. */
    function TgtDataOfPrincipal(principal: string): (data: TgtData)
      reads this
      ensures data == TgtDataOf(State(), principal)
      ensures Valid(State()) ==> (data.state == Invalid <==> !PrincipalHasCache(principal))
    {
      if principal in principalTgtMap then principalTgtMap[principal] else UNKNOWN_TGT
    }

    /** principal_has_cache. */
    predicate PrincipalHasCache(principal: string)
      reads this
    {
      principal in principalCacheMap
    }

    /** available_principals: the principals with a cache handle, in the order the hash map yields them. */
    method AvailablePrincipals() returns (principals: seq<string>)
      ensures forall p :: p in principals <==> p in principalCacheMap
      ensures forall i, j :: 0 <= i < j < |principals| ==> principals[i] != principals[j]
    {
      principals := [];
      var remaining := principalCacheMap.Keys;
      while remaining != {}
        invariant remaining <= principalCacheMap.Keys
        invariant forall p :: p in principals <==> p in principalCacheMap && p !in remaining
        invariant forall i, j :: 0 <= i < j < |principals| ==> principals[i] != principals[j]
        decreases |remaining|
      {
        var p :| p in remaining;
        principals := principals + [p];
        remaining := remaining - {p};
      }
    }

    method SetDefaultCacheUsage(useDefault: bool)
      modifies this`useDefaultCache
      ensures useDefaultCache == useDefault
    {
      useDefaultCache := useDefault;
    }

    /** The destructor: close every stored cache handle once. */
    method Close() returns (ghost order: seq<string>)
      modifies this`released
      ensures forall p :: p in order <==> p in principalCacheMap
      ensures forall i, j :: 0 <= i < j < |order| ==> order[i] != order[j]
      ensures released == old(released) + ClosedHandles(principalCacheMap, order)
    {
      order := [];
      var remaining := principalCacheMap.Keys;
      while remaining != {}
        invariant remaining <= principalCacheMap.Keys
        invariant forall p :: p in order <==> p in principalCacheMap && p !in remaining
        invariant forall i, j :: 0 <= i < j < |order| ==> order[i] != order[j]
        invariant released == old(released) + ClosedHandles(principalCacheMap, order)
        decreases |remaining|
      {
        var p :| p in remaining;
        released := released + [Ccache(principalCacheMap[p])];
        ghost var before := order;
        order := order + [p];
        assert order[..|order| - 1] == before;
        remaining := remaining - {p};
      }
    }
  }
}
