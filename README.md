# ADMC core, modelled in Dafny

ADMC is a Qt console for Active Directory. This project models the parts of
it that hold rules which can be stated and proved:

- **`AdInterface`'s attribute cache** (`ad_interface.dfy`, `attribute_cache.dfy`).
  - The cache is a map from DN to attributes plus the set of loaded DNs.
  - Entries are loaded lazily through the LDAP client.
  - The cache is patched after group-membership changes.
  - `update_cache` rewrites every cached key and value that contains a deleted, renamed or moved DN.
  - It emits `dn_changed` once per key, in order of depth, and `attributes_changed` once per touched entry.
  - The class `AdSession.AdInterface` keeps `attributesMap` and `attributesLoaded` as fields its methods update.
  - Every emitted signal is appended to a ghost `events` log.
  - Module `AttributeCache` gives the specification functions the methods are proved against, and the lemmas about them.
- **The DN helpers** (`dn.dfy`).
  - `extract_name_from_dn` and `extract_parent_dn_from_dn`.
  - The DN composition in `rename` and `move`.
- **The drop decision table** (`drop_type.dfy`).
- **The LDAP filter builders** (`ldap_filter.dfy`). They are the prefix forms of section 3 of RFC 4515, with a parser proving what the text means.
- **The logon-hours and site-link schedule codecs** (`schedule_hours.dfy`).
  - The 21-byte `logonHours` bitmap.
  - The 168-byte site-link payload behind its 20-byte header.
  - The circular time-zone shift.
  - The `load`/`get` rules of the schedule dialog.
- **The Kerberos ticket-cache bookkeeping of `Krb5Client`** (`krb5_client.dfy`).
  - Ticket state from its end and renew-till times (section 5.3 of RFC 4120).
  - The principal-to-ticket and principal-to-cache maps.
  - The default and current principal.
  - A ghost log of every library resource released.
- **The subnet prefix validators** (`create_subnet.dfy`). Host bits must be zero, following section 3.1 of RFC 4632 and section 2.3 of RFC 4291.
- **The move dialog's container classification and site list** (`select_container.dfy`).
- **The pre-Windows 2000 logon name editor** (`sam_name.dfy`).

`qt_text.dfy` (module `QtText`) defines the Qt string and list primitives the
source relies on: `mid`, `indexOf`, `contains`, `replace`, `split`, `join`
and `count`.

The LDAP client, the Kerberos library, the clock, the time zone and the address
parsers are not modelled as code. What they return is a parameter of the
operation that calls them. For example, an `AttributeReply` holds the raw
`{key, value, ...}` list or an error code, and `AD_SUCCESS` is 1. Where the
source iterates a `QMap` or `QHash`, the model accepts any enumeration of the
keys, recorded in a ghost out-parameter. Every property is proved for all such
orders.

Several behaviours of the source are modelled as written and exhibited by
lemmas rather than corrected:

- **The attribute parse loop drops the last pair.** It stops when element `i + 2` is the terminator, so the last key/value pair of every reply is never read. A reply holding a single value loads as an empty entry (`LastPairNeverRead`, `SingleValueEntryLoadsEmpty`).
- **The key rewrite in `update_cache` copies the wrong entry.** For a rename or move it copies the entry of the *old* DN, not of the key being rewritten. Indexing the map inserts an empty entry for the old DN when it was absent, and that entry survives the rewrite (`OldDnStays`, `PhantomOldEntry`).
- **The value rewrite removes values while iterating.** On delete, the value right after a removed one is skipped (`AdjacentHitSurvives`).
- **A logon name ending in '.' is blamed on characters.** It is refused, and the warning claims that illegal characters are present (`TrailingDotBlamedOnCharacters`).
- **Unescaped filter values break the round trip.** A value containing ')' does not parse back as one equality (`UnescapedValueBreaksRoundTrip`).
- **`load_cache_data` releases a principal it never read.** It frees the principal after a failed `krb5_cc_get_principal` (`LoadCacheDataReleasesUnreadPrincipal`).

## Model

| member | source | states |
|---|---|---|
| DistinguishedNames.ExtractParentDnFromDn | src/ad_interface.cpp:53-59 | a DN without a comma is its own parent; otherwise the parent is exactly the text after the first comma, and the DN is a comma-free RDN, a comma and the parent |
| DistinguishedNames.FirstRdn | src/ad_interface.cpp:314-315 | the first segment of a comma split: a comma-free prefix of the DN that ends at the first comma, or the whole DN |
| DistinguishedNames.RdnPrefix | src/ad_interface.cpp:389-391 | the attribute-type prefix kept by rename: the RDN up to and including its first '=', or empty when there is no '=' |
| DistinguishedNames.ExtractNameFromDn | src/ad_interface.cpp:40-48 | reproduces the source's `mid` between the first '=' and the first ','; its own declaration has no contract, which NameOfFirstRdn, NameWithoutEquals and NameOfDn carry |
| DistinguishedNames.NameWithoutEquals | src/ad_interface.cpp:40-48 | a DN with no '=' gives its whole first RDN as the name |
| DistinguishedNames.NameOfFirstRdn | src/ad_interface.cpp:40-48 | the extracted name is the first RDN's text after its first '=' |
| DistinguishedNames.NameOfDn | src/ad_interface.cpp:40-48 | the name of "type=value,parent" is value |
| DistinguishedNames.ParentOfDn | src/ad_interface.cpp:53-59 | the parent of "rdn,parent" is parent |
| DistinguishedNames.ParentOfTopLevel | src/ad_interface.cpp:53-59 | a DN without a comma is returned whole as its own parent |
| DistinguishedNames.MoveDn | src/ad_interface.cpp:314-315 | reproduces the source's first RDN, a comma and the new container; its contract is carried by MoveParent and MoveKeepsName |
| DistinguishedNames.RenameDn | src/ad_interface.cpp:388-395 | reproduces the source's split, first-segment replacement and join; its contract is carried by RenameSegments and RenameNameAndParent |
| DistinguishedNames.MoveParent | src/ad_interface.cpp:314-315 | the parent of the moved DN is the new container |
| DistinguishedNames.MoveKeepsName | src/ad_interface.cpp:314-315 | moving keeps the first RDN and the name |
| DistinguishedNames.RenameSegments | src/ad_interface.cpp:388-395 | rename replaces only the first comma segment, by the old type prefix plus the new name, and keeps the segment count |
| DistinguishedNames.RenameNameAndParent | src/ad_interface.cpp:388-395 | the renamed DN carries the new name and keeps the old parent |
| DropTypes.KindsOf | src/ad_interface.cpp:440-454 | each object kind holds exactly when its objectClass value is present |
| DropTypes.GetDropType | src/ad_interface.cpp:480-507 | equal DNs give None; Move exactly for a user onto an OU or container, or a group or OU onto a target that is neither user nor group; AddToGroup exactly for a user onto a group that is neither OU nor container |
| DropTypes.CanDropEntry | src/ad_interface.cpp:509-517 | a drop is possible exactly in the Move and AddToGroup cases of the table |
| DropTypes.DropTargets | src/ad_interface.cpp:480-507 | AddToGroup only puts users into groups; Move never targets a user unless it is also an OU or container |
| LdapFilter.FilterEquals | src/ad_interface.cpp:704-707 | the equality filter adds exactly three characters around attribute and value |
| LdapFilter.FilterAnd | src/ad_interface.cpp:709-712 | the conjunction adds exactly three characters around its operands |
| LdapFilter.FilterOr | src/ad_interface.cpp:713-716 | the disjunction adds exactly three characters around its operands |
| LdapFilter.FilterNot | src/ad_interface.cpp:717-720 | the negation adds exactly three characters around its operand |
| LdapFilter.Render | src/ad_interface.cpp:704-720 | every filter built by the builders is a parenthesised text |
| LdapFilter.ParseRender | src/ad_interface.cpp:704-720 | the builders' text of a filter whose attributes hold no '=' and whose values hold no ')' parses back to that filter, leaving the following text |
| LdapFilter.RenderInjective | src/ad_interface.cpp:704-720 | two such filters with the same text are the same filter |
| LdapFilter.UnescapedValueBreaksRoundTrip | src/ad_interface.cpp:704-707 | a value containing ')' is cut at it: the text parses as a different equality followed by the rest of the value |
| AttributeCache.PairCount | src/ad_interface.cpp:146 | the parse loop reads pairs only while a third element follows, so at most one pair of the reply is left unread; replies of fewer than two elements or of odd length, where the loop reads past the terminator, are listed under Left out |
| AttributeCache.GroupedValues | src/ad_interface.cpp:146-156 | after parsing, an attribute is present exactly when some read pair names it, and its values are those pairs' values in reply order |
| AttributeCache.LastPairNeverRead | src/ad_interface.cpp:146 | for a complete even-length reply, exactly the last pair is not read |
| AttributeCache.SingleValueEntryLoadsEmpty | src/ad_interface.cpp:146 | a reply with a single key and value loads as an empty entry |
| AttributeCache.Load | src/ad_interface.cpp:132-170 | a reply with entries replaces the DN's entry by the parsed map and marks it loaded; a failed read changes nothing; the cache invariant is kept |
| AttributeCache.LoadEvents | src/ad_interface.cpp:164-169 | a load emits complete on entries, failed with the message on an error code, and nothing on a successful empty read |
| AttributeCache.AfterGet | src/ad_interface.cpp:172-189 | a read of the empty DN or of a loaded DN leaves the cache alone; otherwise it loads the DN |
| AttributeCache.GetLoadsOnce | src/ad_interface.cpp:172-189 | after a successful load, reading the same DN again asks the client nothing, emits nothing and returns the same map |
| AttributeCache.GetStable | src/ad_interface.cpp:172-189 | reading a DN twice with the same reply changes nothing the second time |
| AttributeCache.FirstValue | src/ad_interface.cpp:201-210 | the first value, or "" when there is none |
| AttributeCache.AddValue | src/ad_interface.cpp:677-684 | only for a loaded DN: the value is appended to the attribute's list, every other attribute and DN is unchanged, and the invariant is kept |
| AttributeCache.RemoveFirst | src/ad_interface.cpp:686-696 | removes one occurrence of the value when present and leaves the multiset otherwise equal |
| AttributeCache.RemoveValue | src/ad_interface.cpp:686-696 | only for a loaded DN: the attribute's list loses its first equal value; nothing else changes and the invariant is kept |
| AttributeCache.AddThenRemove | src/ad_interface.cpp:677-696 | removing a value just appended to an existing attribute restores the cache |
| AttributeCache.MembershipRoundTrip | src/ad_interface.cpp:342-384 | the cache patches of removing a user from a group undo those of adding the user to it |
| AttributeCache.AddRemoveCommute | src/ad_interface.cpp:677-696 | patches of two different DNs commute |
| AttributeCache.KeyPassChanges | src/ad_interface.cpp:589-616 | the recorded DN changes are the affected keys, each once, each mapped to its substituted DN |
| AttributeCache.DeleteRemovesAffected | src/ad_interface.cpp:597-600 | on delete exactly the affected keys leave both the map and the loaded set; other entries are untouched |
| AttributeCache.DeleteLeavesNoDescendant | src/ad_interface.cpp:589-608 | on delete the remaining keys are exactly the cached keys not containing the deleted DN |
| AttributeCache.RenameRewritesKeys | src/ad_interface.cpp:601-608 | on rename or move every affected key is replaced by its substituted key, which is marked loaded |
| AttributeCache.OldDnStays | src/ad_interface.cpp:603 | when some key is affected and the old DN is not itself enumerated, an entry for the old DN remains after the rewrite |
| AttributeCache.PhantomOldEntry | src/ad_interface.cpp:603 | when the old DN was not cached, the rewrite inserts an empty unloaded entry for it, and every substituted key receives an empty entry |
| AttributeCache.InsertSorted | src/ad_interface.cpp:620-626 | inserting by comma count keeps a depth-sorted list sorted |
| AttributeCache.SortByDepth | src/ad_interface.cpp:620-626 | the sort is a permutation ordered by non-decreasing comma count |
| AttributeCache.DnChangedEvents | src/ad_interface.cpp:628-632 | one dn_changed event per sorted key, in order, carrying its updated DN |
| AttributeCache.DnChangedOncePerKey | src/ad_interface.cpp:611-632 | the dn_changed keys are exactly the affected keys, each once, in non-decreasing depth, each paired with its substituted DN |
| AttributeCache.ScanHit | src/ad_interface.cpp:650-667 | the value scan reports a change exactly when some value from the start position contains the old DN |
| AttributeCache.DeleteDropsValues | src/ad_interface.cpp:651-659 | on delete, when no two matching values are adjacent, the result is the list without the matching values |
| AttributeCache.AdjacentHitSurvives | src/ad_interface.cpp:651-659 | on delete, of two adjacent matching values the second survives |
| AttributeCache.RenameRewritesValues | src/ad_interface.cpp:660-665 | on rename or move every value containing the old DN is replaced by its substitution, in place, keeping the length |
| AttributeCache.TouchedIffContains | src/ad_interface.cpp:646-669 | an entry is marked changed exactly when one of its values contains the old DN |
| AttributeCache.UpdateCacheConsistent | src/ad_interface.cpp:584-675 | update_cache keeps every loaded DN in the map |
| AttributeCache.DeleteForgetsSubtree | src/ad_interface.cpp:584-675 | after a delete no cached or loaded key contains the deleted DN |
| AttributeCache.RenameForgetsOldKeys | src/ad_interface.cpp:584-675 | after a rename or move no loaded key and no key other than the old DN itself contains the old DN |
| AttributeCache.AttributesChangedEvents | src/ad_interface.cpp:671-673 | one attributes_changed event per DN of the batch, in batch order |
| AdSession.ParseAttributeReply | src/ad_interface.cpp:146-156 | the parse loop builds exactly the grouped map of the pairs it reads |
| AdSession.RewriteValueList | src/ad_interface.cpp:651-667 | the in-place loop over one value list yields the specified scan result and change flag |
| AdSession.RewriteAttributeMap | src/ad_interface.cpp:651-668 | every attribute list of an entry is rewritten, and the flag says whether any value changed |
| AdSession.RewriteEntries | src/ad_interface.cpp:646-669 | the value phase yields the rewritten entries and exactly the set of touched DNs |
| AdSession.RenameReadOfUser | src/ad_interface.cpp:405-406 | a user is renamed through the user call after a single type read |
| AdSession.RenameReadOfOther | src/ad_interface.cpp:407-411 | a non-user is renamed as a group when the second read finds the group class, otherwise with the new RDN; both reads are recorded |
| AdSession.RenameReadConsistent | src/ad_interface.cpp:405-411 | the type reads of rename keep the cache invariant |
| AdSession.AdInterface.constructor | src/ad_interface.cpp:27-31 | a new session starts with an empty cache and no events |
| AdSession.AdInterface.LoadAttributes | src/ad_interface.cpp:132-170 | the new cache and events are those of Load and LoadEvents, and the invariant is kept |
| AdSession.AdInterface.GetAttributes | src/ad_interface.cpp:172-189 | returns the DN's cached map after loading it at most once, or an empty map for "" or a DN still absent |
| AdSession.AdInterface.GetAttributeMulti | src/ad_interface.cpp:191-199 | returns the attribute's values from that map, or none |
| AdSession.AdInterface.GetAttribute | src/ad_interface.cpp:201-210 | returns the first of those values, or "" |
| AdSession.AdInterface.AttributeValueExists | src/ad_interface.cpp:212-220 | true exactly when the value is among the attribute's values |
| AdSession.AdInterface.HasObjectClass | src/ad_interface.cpp:440-446 | true exactly when the class is among the objectClass values |
| AdSession.AdInterface.SetAttribute | src/ad_interface.cpp:222-251 | true exactly on success; on success the DN is reloaded and attributes_changed then complete are emitted with the old value; on failure only the old-value read remains and failed is emitted |
| AdSession.AdInterface.AddAttributeInternal | src/ad_interface.cpp:677-684 | the cache becomes AddValue of it, with one attributes_changed event for a loaded DN |
| AdSession.AdInterface.RemoveAttributeInternal | src/ad_interface.cpp:686-696 | the cache becomes RemoveValue of it, with an attributes_changed event only when a value was removed |
| AdSession.AdInterface.AddUserToGroup | src/ad_interface.cpp:342-362 | on success the user is appended to the group's members and the group to the user's memberOf, then complete; on failure the cache is unchanged and failed is emitted |
| AdSession.AdInterface.GroupRemoveUser | src/ad_interface.cpp:364-384 | on success both memberships lose one entry, then complete; on failure the cache is unchanged and failed is emitted |
| AdSession.AdInterface.UpdateCache | src/ad_interface.cpp:584-675 | key rewrite, dn_changed in depth order, conditional reload of the new DN, value rewrite and one attributes_changed per touched DN, in that order; the invariant is kept |
| AdSession.AdInterface.RewriteCachedKeys | src/ad_interface.cpp:589-616 | the key loop over some enumeration of the keys yields the specified key pass and emits nothing |
| AdSession.AdInterface.RewriteCachedKey | src/ad_interface.cpp:593-615 | one key step matches the specification's step |
| AdSession.AdInterface.RewriteCachedValues | src/ad_interface.cpp:646-669 | the cache's values are rewritten as specified and the touched DNs are returned |
| AdSession.AdInterface.SignalAttributesChanged | src/ad_interface.cpp:671-673 | emits attributes_changed once for each changed DN and nothing else |
| AdSession.AdInterface.DeleteEntry | src/ad_interface.cpp:294-309 | on success the cache is updated for deletion and complete is emitted; on failure nothing changes but the failed event |
| AdSession.AdInterface.Move | src/ad_interface.cpp:311-340 | the user/other choice follows the type read; on success the cache is updated to the moved DN and complete is emitted; on failure failed is emitted with the would-be DN |
| AdSession.AdInterface.Rename | src/ad_interface.cpp:386-420 | the rename call follows the type reads; on success the cache is updated to the renamed DN and complete is emitted; on failure failed is emitted |
| AdSession.AdInterface.FinishRename | src/ad_interface.cpp:413-419 | after the call: update and complete on success, failed alone on failure |
| AdSession.AdInterface.ChooseRenameCall | src/ad_interface.cpp:404-411 | chooses the user, group or generic rename call, with the reads it performs |
| AdSession.AdInterface.ChooseNonUserCall | src/ad_interface.cpp:407-411 | for a non-user, chooses between the group call and the RDN call after the group read |
| AdSession.AdInterface.DropTypeOf | src/ad_interface.cpp:480-507 | equal DNs read nothing; otherwise seven reads in source order, each with its own client answer: the drop type is the table's answer on what each read returned, and the cache and the exact signal log are those of the seven reads |
| AdSession.DropChecks | src/ad_interface.cpp:485-492 | the seven is_* calls: three of the dropped DN, then four of the target, each paired with its own answer |
| AdSession.ChecksSplit | src/ad_interface.cpp:485-492 | a run of reads split in two: the second part starts from the cache the first leaves, and signals and answers concatenate |
| AdSession.ChecksConsistent | src/ad_interface.cpp:485-492 | a run of reads keeps every loaded DN cached |
| AdSession.ChecksOnLoaded | src/ad_interface.cpp:172-189 | reads of a loaded DN change nothing, signal nothing and answer from the cached entry |
| AdSession.ChecksFirstLoads | src/ad_interface.cpp:172-189 | when the first read of a DN loads it, the later reads ask nothing and answer from what it loaded |
| AdSession.ChecksSameReply | src/ad_interface.cpp:172-189 | reads of one DN answered the same way each time leave the cache as one read does and answer from it |
| AdSession.DropChecksSameAnswers | src/ad_interface.cpp:480-507 | when every read of a DN gets the same answer, each DN is classified by the object classes of that one answer |
| AdSession.DropChecksLoadOnce | src/ad_interface.cpp:480-507 | when the first read of each DN loads it, the cache, the signals and all seven answers come from those two reads alone |
| ScheduleHours.Shifted | src/admc/attribute_edits/schedule_hours_dialog.cpp:306-330 | a shift larger than the length leaves the list alone; otherwise it is a rotation by the shift, of the same length |
| ScheduleHours.ShiftedAt | src/admc/attribute_edits/schedule_hours_dialog.cpp:313-327 | element i of the shifted list is element i - shift, wrapped once |
| ScheduleHours.ShiftList | src/admc/attribute_edits/schedule_hours_dialog.cpp:306-330 | the loop computes the rotation |
| ScheduleHours.ShiftBack | src/admc/attribute_edits/schedule_hours_dialog.cpp:306-330 | shifting by k and then by -k gives back the list |
| ScheduleHours.PackByte | src/admc/attribute_edits/schedule_hours_dialog.cpp:291-295 | the bit loop builds the byte whose bit i is hour i |
| ScheduleHours.BitsOfByteOf | src/admc/attribute_edits/schedule_hours_dialog.cpp:244-249 | reading the bits of a packed byte gives back the eight hours |
| ScheduleHours.ByteOfBitsOf | src/admc/attribute_edits/schedule_hours_dialog.cpp:291-295 | packing the bits read from a byte gives back the byte |
| ScheduleHours.UnpackPack | src/admc/attribute_edits/schedule_hours_dialog.cpp:240-301 | unpacking packed hours gives back the hours |
| ScheduleHours.PackUnpack | src/admc/attribute_edits/schedule_hours_dialog.cpp:240-301 | packing unpacked bytes gives back the bytes |
| ScheduleHours.DaysOfWeek | src/admc/attribute_edits/schedule_hours_dialog.cpp:257-267 | a week of hours splits into 7 days of 24, hour h of day d being hour 24d + h |
| ScheduleHours.DaysFlatten | src/admc/attribute_edits/schedule_hours_dialog.cpp:257-278 | splitting a joined grid gives back the grid |
| ScheduleHours.FlattenDays | src/admc/attribute_edits/schedule_hours_dialog.cpp:257-278 | joining a split week gives back the week |
| ScheduleHours.SplitDays | src/admc/attribute_edits/schedule_hours_dialog.cpp:257-267 | the split loop computes the day split |
| ScheduleHours.JoinDays | src/admc/attribute_edits/schedule_hours_dialog.cpp:273-278 | the join loop computes the concatenation of the days |
| ScheduleHours.LogonHoursBytes | src/admc/attribute_edits/schedule_hours_dialog.cpp:230-238 | the bitmap used is always 21 bytes |
| ScheduleHours.LogonHourBits | src/admc/attribute_edits/schedule_hours_dialog.cpp:240-250 | unshifted, hour h of day d is bit (24d + h) mod 8, LSB first, of byte (24d + h) / 8 |
| ScheduleHours.MalformedLogonHoursAllowAll | src/admc/attribute_edits/schedule_hours_dialog.cpp:230-238 | a value that is not 21 bytes decodes as every hour allowed, whatever the offset |
| ScheduleHours.LogonGrid | src/admc/attribute_edits/schedule_hours_dialog.cpp:224-270 | decoding always yields 7 days of 24 hours |
| ScheduleHours.LogonRoundTrip | src/admc/attribute_edits/schedule_hours_dialog.cpp:224-304 | a grid encodes to 21 bytes that decode to the same grid under the same offset |
| ScheduleHours.LogonBytesRoundTrip | src/admc/attribute_edits/schedule_hours_dialog.cpp:224-304 | a 21-byte value decodes to a grid that encodes back to the same bytes |
| ScheduleHours.LogonHoursToBools | src/admc/attribute_edits/schedule_hours_dialog.cpp:224-270 | the decoding loops compute the logon grid |
| ScheduleHours.LogonHoursToBytes | src/admc/attribute_edits/schedule_hours_dialog.cpp:272-304 | the encoding loops compute the logon bytes |
| ScheduleHours.SitePayload | src/admc/attribute_edits/schedule_hours_dialog.cpp:336-337 | the payload used is always 168 bytes |
| ScheduleHours.AllowedHours | src/admc/attribute_edits/schedule_hours_dialog.cpp:340-345 | an hour is allowed exactly when its byte is 0xFF |
| ScheduleHours.HourBytes | src/admc/attribute_edits/schedule_hours_dialog.cpp:367-371 | one byte per hour: 0xFF allowed, 0xF0 denied |
| ScheduleHours.SiteGrid | src/admc/attribute_edits/schedule_hours_dialog.cpp:333-357 | decoding always yields 7 days of 24 hours |
| ScheduleHours.SiteRoundTrip | src/admc/attribute_edits/schedule_hours_dialog.cpp:333-374 | a grid encodes to 168 bytes that decode to the same grid under the same offset |
| ScheduleHours.SiteBytesRoundTrip | src/admc/attribute_edits/schedule_hours_dialog.cpp:333-374 | re-encoding a decoded payload maps 0xFF to 0xFF and every other byte to 0xF0 |
| ScheduleHours.ReadAllowedHours | src/admc/attribute_edits/schedule_hours_dialog.cpp:340-345 | the byte loop computes the allowed hours |
| ScheduleHours.WriteHourBytes | src/admc/attribute_edits/schedule_hours_dialog.cpp:367-371 | the byte loop computes the hour bytes |
| ScheduleHours.SiteScheduleBytesToBools | src/admc/attribute_edits/schedule_hours_dialog.cpp:333-357 | the decoder computes the site grid |
| ScheduleHours.BoolsToSiteScheduleBytes | src/admc/attribute_edits/schedule_hours_dialog.cpp:359-374 | the encoder computes the site bytes |
| ScheduleHours.DefaultSiteSchedule | src/admc/attribute_edits/schedule_hours_dialog.h:92-98 | 188 bytes whose header says size 188, one schedule, data at offset 20, followed by 168 bytes of 0xFF |
| ScheduleHours.DecodedGrid | src/admc/attribute_edits/schedule_hours_dialog.cpp:120-126 | the decoded original value is always a full week grid |
| ScheduleHours.GridOfCells | src/admc/attribute_edits/schedule_hours_dialog.cpp:128-157 | the selection built from a grid reads back as the same grid |
| ScheduleHours.ToggleThereAndBack | src/admc/attribute_edits/schedule_hours_dialog.cpp:142-206 | switching between local time and UTC and back with no edit in between keeps the edited grid: the value written at the first switch is kept by load, written again unchanged at the second switch, and decodes to the user's grid |
| ScheduleHours.EncodedValueDecodes | src/admc/attribute_edits/schedule_hours_dialog.cpp:177-193 | a changed grid is encoded as 21 bytes, or as the header plus 168 bytes, and decodes back to the grid |
| ScheduleHours.SiteValueDecodes | src/admc/attribute_edits/schedule_hours_dialog.cpp:178-188 | header plus site bytes is 188 bytes whose payload decodes to the grid |
| ScheduleHours.PayloadAfterHeader | src/admc/attribute_edits/schedule_hours_dialog.cpp:182-186 | the payload read back from header plus data is the data |
| ScheduleHours.ScheduleHoursDialog.constructor | src/admc/attribute_edits/schedule_hours_dialog.cpp:71-74 | the dialog starts in local time and loads the value |
| ScheduleHours.ScheduleHoursDialog.Load | src/admc/attribute_edits/schedule_hours_dialog.cpp:105-140 | a short site-link value is replaced by the default schedule; the selection is the decoded grid |
| ScheduleHours.ScheduleHoursDialog.Get | src/admc/attribute_edits/schedule_hours_dialog.cpp:142-195 | the original bytes when the selection equals their decoding, otherwise the encoding of the selection |
| ScheduleHours.ScheduleHoursDialog.ToggleLocalTime | src/admc/attribute_edits/schedule_hours_dialog.cpp:198-206 | the current value is taken under the old offset and reloaded under the new one |
| Krb5.TgtStateFromCreds | src/adldap/krb5client.cpp:252-262 | Outdated exactly past renew-till; Expired exactly past end time but not renew-till; Active otherwise; never Invalid |
| Krb5.TgtStateBoundaries | src/adldap/krb5client.cpp:252-262 | at the end time a ticket is Active, at renew-till Expired, one second later Outdated |
| Krb5.TgtStateMonotonic | src/adldap/krb5client.cpp:252-262 | an Outdated ticket stays Outdated later, and one Active later was Active earlier |
| Krb5.Releases | src/adldap/krb5client.cpp:282-302 | cleanup releases each non-null resource it is given, once each |
| Krb5.TgtDataOf | src/adldap/krb5client.cpp:78-80 | the stored ticket data, or the default entry with state Invalid for an unknown principal |
| Krb5.HasCacheIffKnownTgt | src/adldap/krb5client.cpp:78-92 | a principal has a cache handle exactly when its ticket data is not Invalid, and that data names it |
| Krb5.TgtDataFrom | src/adldap/krb5client.cpp:209-239 | ticket data carries the principal, the end and renew-till times, and a classified state |
| Krb5.LoadCacheDataReleasesAcquired | src/adldap/krb5client.cpp:190-250 | once the principal is read, every failure path releases exactly what it acquired; success keeps only the cache handle |
| Krb5.LoadCacheDataReleasesUnreadPrincipal | src/adldap/krb5client.cpp:196-201 | a failed principal read still frees the principal it never obtained |
| Krb5.LoadCacheDataValid | src/adldap/krb5client.cpp:190-250 | on success both maps gain the principal together and the default changes only for the default cache; on failure nothing changes |
| Krb5.LoadEntriesKeepDefault | src/adldap/krb5client.cpp:172-185 | with the default cache loaded and open, loading the other caches never changes the default principal or its entries |
| Krb5.LoadEntriesClosesDuplicates | src/adldap/krb5client.cpp:172-177 | a cache equal to the default is closed |
| Krb5.DuplicatePrincipalHandleLost | src/adldap/krb5client.cpp:177-185 | of two other caches with one principal, both loading, the map keeps the later handle, and the earlier handle is neither kept nor closed |
| Krb5.LoadCachesState | src/adldap/krb5client.cpp:153-163 | an empty collection or a failed default lookup changes nothing |
| Krb5.LoadCachesReleases | src/adldap/krb5client.cpp:153-156 | an empty collection releases nothing |
| Krb5.LoadCachesKeepsDefault | src/adldap/krb5client.cpp:152-188 | after loading, the default principal is the default cache's, with its handle and ticket data |
| Krb5.LoadCachesValid | src/adldap/krb5client.cpp:152-188 | loading keeps the two maps in step and the current principal unchanged |
| Krb5.KinitStatus | src/adldap/krb5client.cpp:102-150 | kinit succeeds exactly when every step succeeds, and otherwise fails with "Authentication failed" |
| Krb5.KinitFailureReleasesAcquired | src/adldap/krb5client.cpp:107-138 | every failure releases what was acquired, once each; an unresolved handle is also closed |
| Krb5.KinitSuccessKeepsItsCredentials | src/adldap/krb5client.cpp:140-149 | on success kinit frees neither its principal nor its credentials |
| Krb5.KinitValid | src/adldap/krb5client.cpp:140-149 | with a default principal, success sets the current principal; without one, the new cache becomes the default and the current principal is unchanged |
| Krb5.Krb5Client.constructor | src/adldap/krb5client.cpp:30-40 | a new client holds what loading the caches into an empty state gives |
| Krb5.Krb5Client.Cleanup | src/adldap/krb5client.cpp:282-302 | appends exactly the releases of the given resources |
| Krb5.Krb5Client.LoadCacheData | src/adldap/krb5client.cpp:190-250 | updates the state and the release log as specified |
| Krb5.Krb5Client.LoadCaches | src/adldap/krb5client.cpp:152-188 | updates the state and the release log as specified |
| Krb5.Krb5Client.LoadOtherCaches | src/adldap/krb5client.cpp:172-185 | the cursor loop loads every non-default cache in cursor order |
| Krb5.Krb5Client.Kinit | src/adldap/krb5client.cpp:102-150 | returns the kinit status and updates the state and the release log as specified |
| Krb5.Krb5Client.Authenticate | src/adldap/krb5client.cpp:49-56 | does nothing for the current principal; otherwise runs kinit; the map invariant is kept |
| Krb5.Krb5Client.RefreshTgt | src/adldap/krb5client.cpp:62-76 | fails without a cache handle, or when renewal or store-back fails, freeing the new credentials |
| Krb5.Krb5Client.TgtDataOfPrincipal | src/adldap/krb5client.cpp:78-80 | the principal's ticket data; Invalid exactly when it has no cache |
| Krb5.Krb5Client.AvailablePrincipals | src/adldap/krb5client.cpp:98-100 | every principal with a cache handle, each once |
| Krb5.Krb5Client.SetDefaultCacheUsage | src/adldap/krb5client.cpp:94-96 | sets the default-cache flag |
| Krb5.Krb5Client.Close | src/adldap/krb5client.cpp:42-47 | closes every cache handle of the map, once each |
| CreateSubnet.ValidateIpv4Prefix | src/admc/create_dialogs/create_subnet_dialog.cpp:126-146 | reproduces the source's range check, the prefix 0 and 32 cases and the shifted-mask test; its contract is carried by Ipv4ValidIffHostZero, Ipv4Boundaries and Ipv4LongerPrefix |
| CreateSubnet.Ipv4ValidIffHostZero | src/admc/create_dialogs/create_subnet_dialog.cpp:126-146 | an IPv4 address is accepted exactly when the prefix is in 0..32 and its 32 - prefix low host bits are zero |
| CreateSubnet.Ipv4Boundaries | src/admc/create_dialogs/create_subnet_dialog.cpp:127-137 | a prefix outside 0..32 is refused, prefix 0 admits only address 0, prefix 32 every address |
| CreateSubnet.Ipv4HostMask | src/admc/create_dialogs/create_subnet_dialog.cpp:139-145 | the host mask of prefix 0 is all ones and of prefix 32 is zero |
| CreateSubnet.Ipv4HostMaskShrinks | src/admc/create_dialogs/create_subnet_dialog.cpp:139-145 | a longer prefix has a host mask contained in the shorter one's |
| CreateSubnet.Ipv4LongerPrefix | src/admc/create_dialogs/create_subnet_dialog.cpp:126-146 | a network address of a prefix is also one of every longer prefix |
| CreateSubnet.ValidateIpv6Prefix | src/admc/create_dialogs/create_subnet_dialog.cpp:148-189 | accepted exactly when the prefix is in 0..128 and every bit after the prefix is zero, whole bytes and partial byte alike |
| CreateSubnet.Ipv6Boundaries | src/admc/create_dialogs/create_subnet_dialog.cpp:153-164 | prefix 0 requires all 16 bytes zero, prefix 128 admits every address |
| CreateSubnet.Ipv6LongerPrefix | src/admc/create_dialogs/create_subnet_dialog.cpp:166-188 | a network address of a prefix is also one of every longer prefix |
| CreateSubnet.BranchOf | src/admc/create_dialogs/create_subnet_dialog.cpp:78-85 | refused exactly when the input does not split into two parts on '/'; IPv4 exactly when it also contains '.'; the parts reassemble the input |
| CreateSubnet.SplitTwo | src/admc/create_dialogs/create_subnet_dialog.cpp:78-79 | two parts means exactly one '/', between the parts |
| CreateSubnet.NonNumericPrefixReadsAsZero | src/admc/create_dialogs/create_subnet_dialog.cpp:96-97 | a prefix the integer conversion reads as 0 accepts only address 0 |
| CreateSubnet.SubnetDialog.constructor | src/admc/create_dialogs/create_subnet_dialog.cpp:76-83 | OK starts disabled and the name empty |
| CreateSubnet.SubnetDialog.CheckPrefixValidity | src/admc/create_dialogs/create_subnet_dialog.cpp:76-124 | OK is enabled exactly when the input is accepted, and the name is the input then and empty otherwise |
| SelectContainer.ParentContainerType | src/admc/select_dialogs/select_container_dialog.cpp:146-168 | empty is Default; all inside the sites container is SiteServers; none inside is Default; a mix is Undefined, found at the first DN on the other side of the first |
| SelectContainer.SameParent | src/admc/select_dialogs/select_container_dialog.cpp:199-204 | true exactly when every DN contains the parent DN |
| SelectContainer.SiteRow | src/admc/select_dialogs/select_container_dialog.cpp:220-227 | a site's row shows its name and carries one of its servers containers |
| SelectContainer.SiteRows | src/admc/select_dialogs/select_container_dialog.cpp:209-228 | at most one row per site |
| SelectContainer.SiteRowsMembers | src/admc/select_dialogs/select_container_dialog.cpp:209-228 | the rows are exactly the rows of the sites that are not skipped |
| SelectContainer.OwnSiteNotOffered | src/admc/select_dialogs/select_container_dialog.cpp:209-212 | when the servers share a parent, the site containing it is not offered |
| SelectContainer.SelectContainerDialog.constructor | src/admc/select_dialogs/select_container_dialog.cpp:41-85 | the model holds the domain head, the site rows, or the failure message, by classification |
| SelectContainer.SelectContainerDialog.SetupDefaultContainerTree | src/admc/select_dialogs/select_container_dialog.cpp:170-180 | appends the domain's head container |
| SelectContainer.SelectContainerDialog.SetupSiteContainerList | src/admc/select_dialogs/select_container_dialog.cpp:182-229 | nothing for an empty list; otherwise appends the rows of the sites not skipped, in search order |
| SelectContainer.SelectContainerDialog.SetupUndefinedViewState | src/admc/select_dialogs/select_container_dialog.cpp:231-234 | appends the single failure message |
| SamName.MaxLength | src/admc/attribute_edits/sam_name_edit.cpp:44-50 | 16 for computers, 20 for every other class |
| SamName.DomainText | src/admc/attribute_edits/sam_name_edit.cpp:53-59 | the domain up to its first '.' followed by a backslash |
| SamName.TrailingDotRefused | src/admc/attribute_edits/sam_name_edit.cpp:85-87 | a value ending in '.' is refused whatever the character set |
| SamName.TrailingDotBlamedOnCharacters | src/admc/attribute_edits/sam_name_edit.cpp:85-91 | "host." holds none of the characters the message lists, yet it is refused |
| SamName.CleanValueValid | src/admc/attribute_edits/sam_name_edit.cpp:81-96 | a value without refused characters is accepted exactly when it does not end in '.' |
| SamName.Truncated | src/admc/attribute_edits/sam_name_edit.cpp:68-73 | the loaded text is a prefix of the value within the length limit, the whole value when it fits |
| SamName.SamNameEdit.constructor | src/admc/attribute_edits/sam_name_edit.cpp:34-66 | sets the class's length limit and the domain text |
| SamName.SamNameEdit.Load | src/admc/attribute_edits/sam_name_edit.cpp:68-73 | the text becomes the value cut at the limit |
| SamName.SamNameEdit.Verify | src/admc/attribute_edits/sam_name_edit.cpp:77-97 | true exactly when the text has no refused character and no trailing '.'; a warning is shown otherwise; the DN is not consulted |

## Left out

- The LDAP connection (`AdConnection`) is not modelled. Its replies and result codes are parameters. `AD_SUCCESS` is 1, as in `adldap/include/active_directory.h`. Freeing the returned C arrays is not modelled.
- `load_children`, `search`, `create_entry`, `set_pass`, `drop_entry` and `command` are left out. They only pass through to the client or are command-line plumbing, with no cache rule.
- `is_container_like` and `is_policy` are left out; no modelled operation uses them.
- The parse loop's read past the terminator is not modelled. A reply of fewer than two elements, or of odd length, makes the loop test an element beyond the terminating NULL. The model reads no pair from a reply shorter than two elements and stops after the last full pair of an odd one.
- The reply is read as alternating key/value pairs, as the loop does. The `{key, value, value, key, value ...}` layout described in the comment above the loop, with several values after one key, is not modelled.
- `QMap` and `QHash` key order is not modelled: key loops accept any enumeration. `std::sort` on the `dn_changed` list is modelled as a stable insertion sort, one of the orders it may produce.
- The value-rewrite loop removes from the list it iterates with a range-for. It is modelled as an index loop over the live list, so the value after a removed one is skipped. The real iterator behaviour after `removeAt` is undefined.
- The LDAP filter builders do not escape values; nor does the model. Section 3 of RFC 4515 escaping is not modelled.
- The name and parent helpers split DNs on every comma. The escaping of section 2.4 of RFC 4514 is not modelled.
- `dn_get_parent` is not part of this model. The parent DN of the first moved object is a parameter of the container dialog.
- The search results, `g_adconfig`, icons and view settings of the container dialog are left out. The sites container DN and the domain DN are parameters, and the sites with their servers containers are one parameter in search order. `fetch_node` and item expansion are left out.
- `string_contains_bad_chars` and `SAM_NAME_BAD_CHARS` are not part of this model. The refused characters are a parameter. `SamNameEdit::apply` and `set_enabled` are widget plumbing and are left out.
- The system time zone (`get_current_utc_offset`) is a parameter.
- The dialog's widgets, style sheets and geometry are left out. The selection model is a set of (day, hour) cells.
- The `QRegularExpressionValidator` on the prefix edit is not modelled. The input shape it enforces is not assumed: `CheckPrefixValidity` is stated for every text.
- `inet_pton` and `QString::toInt` are not modelled. Their results are parameters. The IPv4 address is given in host order, with `ntohl` folded in.
- Every `krb5_*` call is a parameter giving success or failure and the data read. `time(nullptr)` is the `now` parameter, and `getuid()` and the cache name are left out.
- The context-initialisation exception of the `Krb5Client` constructor is left out.
- `authenticate_with_cache` has an empty body and is left out.
- The release log covers `cleanup`, `load_cache_data` and `kinit`. The principals freed by `caches_are_equal`, the principal it leaks when the second `krb5_cc_get_principal` fails, and the cursor freed at the end of the cache collection are not in the log.
- Krb5.LoadCachesState: when the default cache fails to load, `load_cache_data` has already closed it, and `load_caches` still passes it to `caches_are_equal` on every turn of the cursor loop. That read of a closed handle is undefined. The model does not read the closed default: each cursor entry carries the answer the comparison gives then (`closedDefaultAnswer`). Krb5.Krb5Client.LoadCaches follows this.
- Krb5.LoadEntriesKeepDefault: stated only for a default cache that loaded and so is still open; with a closed default the comparison's answer is a parameter, and another cache with the default's principal may replace its entry.
- Krb5.DuplicatePrincipalHandleLost: `principal_cache_map[principal] = ccache` overwrites the handle of an earlier cache with the same principal, and that handle is never closed. The model keeps this behaviour and exhibits it in this lemma; the release log does not list the lost handle.
- The destructor's freeing of the context before closing the caches is left out. `Close` records only the handles closed.
- Krb5.Krb5Client.RefreshTgt: its calls are malformed as written. The model states its evident intent: no handle or a null handle fails with code 0, and a failed renewal or store fails with that code after freeing the new credentials. The source folds both calls into a `bool` and reports error code 1; the model reports the library's own code.
- Krb5.Krb5Client.Kinit: exceptions are modelled as a returned `Failed` status; the throw itself is not.
- LdapFilter.FilterEquals: its own contract states only the length of the text; LdapFilter.ParseRender and LdapFilter.RenderInjective state what the text means.
- LdapFilter.FilterAnd: its own contract states only the length of the text; LdapFilter.ParseRender and LdapFilter.RenderInjective state what the text means.
- LdapFilter.FilterOr: its own contract states only the length of the text; LdapFilter.ParseRender and LdapFilter.RenderInjective state what the text means.
- LdapFilter.FilterNot: its own contract states only the length of the text; LdapFilter.ParseRender and LdapFilter.RenderInjective state what the text means.
