/**
 * The drag-and-drop decision of AdInterface (get_drop_type, can_drop_entry):
 * what dropping one directory object onto another does, decided from the
 * objectClass values of both.
 */
module DropTypes {

  datatype DropType = DropMove | DropAddToGroup | DropNone

  /** The objectClass facts get_drop_type asks about one object. */
  datatype ObjectKinds = ObjectKinds(isUser: bool, isGroup: bool, isOu: bool, isContainer: bool)

  /** is_user / is_group / is_ou / is_container: membership of a class name in objectClass. */
  function KindsOf(objectClasses: seq<string>): (k: ObjectKinds)
    ensures k.isUser <==> "user" in objectClasses
    ensures k.isGroup <==> "group" in objectClasses
    ensures k.isOu <==> "organizationalUnit" in objectClasses
    ensures k.isContainer <==> "container" in objectClasses
  {
    ObjectKinds("user" in objectClasses, "group" in objectClasses,
                "organizationalUnit" in objectClasses, "container" in objectClasses)
  }

  /** get_drop_type, with the decision table stated outcome by outcome. */
  function GetDropType(dn: string, targetDn: string, dropped: ObjectKinds, target: ObjectKinds): (r: DropType)
    ensures dn == targetDn ==> r == DropNone
    ensures r == DropMove <==> (dn != targetDn &&
                                ((dropped.isUser && (target.isOu || target.isContainer)) ||
                                 (!dropped.isUser && (dropped.isGroup || dropped.isOu) && !target.isUser && !target.isGroup)))
    ensures r == DropAddToGroup <==> (dn != targetDn && dropped.isUser && !target.isOu && !target.isContainer && target.isGroup)
  {
    if dn == targetDn then DropNone
    else if dropped.isUser then
      if target.isOu || target.isContainer then DropMove
      else if target.isGroup then DropAddToGroup
      else DropNone
    else if dropped.isGroup || dropped.isOu then
      if !target.isUser && !target.isGroup then DropMove else DropNone
    else DropNone
  }

  /** can_drop_entry. */
  function CanDropEntry(dn: string, targetDn: string, dropped: ObjectKinds, target: ObjectKinds): (r: bool)
    ensures r <==> (dn != targetDn &&
                    ((dropped.isUser && (target.isOu || target.isContainer || target.isGroup)) ||
                     (!dropped.isUser && (dropped.isGroup || dropped.isOu) && !target.isUser && !target.isGroup)))
  {
    GetDropType(dn, targetDn, dropped, target) != DropNone
  }

  /** Only users are ever added to groups, and nothing is moved onto a user. */
  lemma DropTargets(dn: string, targetDn: string, dropped: ObjectKinds, target: ObjectKinds)
    ensures GetDropType(dn, targetDn, dropped, target) == DropAddToGroup ==> dropped.isUser && target.isGroup
    ensures GetDropType(dn, targetDn, dropped, target) == DropMove ==>
      target.isOu || target.isContainer || !target.isUser
  {
  }
}
