/**
 * Distinguished-name text handling of AdInterface: the name and parent
 * extractors and the new DN that rename and move compose. A DN is treated as
 * plain text split on ',' (the escaping of section 2.4 of RFC 4514 is not
 * honoured, exactly as in the program).
 */
module DistinguishedNames {
  import opened QtText

  type Dn = string

  /** extract_name_from_dn: the text between the first '=' and the first ','. */
  function ExtractNameFromDn(dn: Dn): string
  {
    var equalsIndex := IndexOf(dn, '=') + 1;
    var commaIndex := IndexOf(dn, ',');
    Mid(dn, equalsIndex, commaIndex - equalsIndex)
  }

  /** extract_parent_dn_from_dn: everything after the first ','. */
  function ExtractParentDnFromDn(dn: Dn): (parent: Dn)
    ensures ',' !in dn ==> parent == dn
    ensures ',' in dn ==> |parent| < |dn| && dn == dn[..|dn| - |parent| - 1] + "," + parent
                          && ',' !in dn[..|dn| - |parent| - 1]
  {
    var commaIndex := IndexOf(dn, ',');
    Mid(dn, commaIndex + 1, -1)
  }

  /** The first RDN of a DN: its first comma-separated segment. */
  function FirstRdn(dn: Dn): (rdn: string)
    ensures ',' !in rdn && StartsWith(dn, rdn)
    ensures ',' in dn ==> dn[|rdn|] == ','
    ensures ',' !in dn ==> rdn == dn
  {
    Split(dn, ',')[0]
  }

  /** The attribute-type prefix of an RDN, up to and including its first '=' ("CN="). */
  function RdnPrefix(rdn: string): (prefix: string)
    ensures StartsWith(rdn, prefix)
    ensures '=' !in rdn ==> prefix == ""
    ensures '=' in rdn ==> |prefix| >= 1 && prefix[|prefix| - 1] == '=' && '=' !in prefix[..|prefix| - 1]
  {
    rdn[..IndexOf(rdn, '=') + 1]
  }

  /** The DN rename composes: the first RDN keeps its type prefix and takes the new name. */
  function RenameDn(dn: Dn, newName: string): Dn
  {
    var exploded := Split(dn, ',');
    Join(exploded[0 := RdnPrefix(exploded[0]) + newName], ',')
  }

  /** The DN move composes: the first RDN followed by the new container. */
  function MoveDn(dn: Dn, newContainer: Dn): Dn
  {
    FirstRdn(dn) + "," + newContainer
  }

  lemma IndexOfInPrefix<T>(s: seq<T>, k: nat, x: T)
    requires k <= |s| && x in s[..k]
    ensures IndexOf(s, x) == IndexOf(s[..k], x)
  {
    var q := IndexOf(s[..k], x);
    assert s[q] == s[..k][q];
    forall j | 0 <= j < q
      ensures s[j] != x
    {
      assert s[j] == s[..k][j];
    }
    IndexOfIs(s, x, q);
  }

  /** The name and the parent around a first comma at position c. */
  lemma SplitAtFirstComma(dn: Dn, c: nat)
    requires c < |dn| && dn[c] == ',' && ',' !in dn[..c]
    ensures IndexOf(dn, ',') == c
    ensures FirstRdn(dn) == dn[..c]
  {
    assert dn == dn[..c] + dn[c..];
    IndexOfConcat(dn[..c], dn[c..], ',');
  }

  /** When the first RDN holds a '=', the name is what follows that '=' in the first RDN. */
  lemma NameOfFirstRdn(dn: Dn)
    requires '=' in FirstRdn(dn)
    ensures ExtractNameFromDn(dn) == FirstRdn(dn)[IndexOf(FirstRdn(dn), '=') + 1..]
  {
    var rdn := FirstRdn(dn);
    assert dn[..|rdn|] == rdn;
    IndexOfInPrefix(dn, |rdn|, '=');
    if ',' in dn {
      SplitAtFirstComma(dn, |rdn|);
    }
  }

  /** A DN with no '=' at all gives its whole first RDN as the name. */
  lemma NameWithoutEquals(dn: Dn)
    requires '=' !in dn
    ensures ExtractNameFromDn(dn) == FirstRdn(dn)
  {
    var rdn := FirstRdn(dn);
    if ',' in dn {
      assert dn[..|rdn|] == rdn;
      SplitAtFirstComma(dn, |rdn|);
    }
  }

  /** extract_name_from_dn on "type=value,parent" gives value. */
  lemma NameOfDn(attrType: string, value: string, parent: Dn)
    requires '=' !in attrType && ',' !in attrType && ',' !in value
    ensures ExtractNameFromDn(attrType + "=" + value + "," + parent) == value
  {
    var dn := attrType + "=" + value + "," + parent;
    var e := |attrType|;
    assert forall j :: 0 <= j < e ==> dn[j] == attrType[j];
    assert forall j :: e < j < e + 1 + |value| ==> dn[j] == value[j - e - 1];
    IndexOfIs(dn, '=', e);
    IndexOfIs(dn, ',', e + 1 + |value|);
    assert dn[e + 1..e + 1 + |value|] == value;
  }

  /** extract_parent_dn_from_dn on "rdn,parent" gives parent. */
  lemma ParentOfDn(rdn: string, parent: Dn)
    requires ',' !in rdn
    ensures ExtractParentDnFromDn(rdn + "," + parent) == parent
  {
    var dn := rdn + "," + parent;
    assert dn == rdn + ("," + parent);
    IndexOfConcat(rdn, "," + parent, ',');
    assert dn[|rdn| + 1..] == parent;
  }

  /** A DN without a comma is its own "parent". */
  lemma ParentOfTopLevel(dn: Dn)
    requires ',' !in dn
    ensures ExtractParentDnFromDn(dn) == dn
  {
  }

  /** The parent of a moved DN is the new container. */
  lemma MoveParent(dn: Dn, newContainer: Dn)
    ensures ExtractParentDnFromDn(MoveDn(dn, newContainer)) == newContainer
  {
    ParentOfDn(FirstRdn(dn), newContainer);
  }

  /** A move keeps the first RDN, hence the object's name. */
  lemma MoveKeepsName(dn: Dn, newContainer: Dn)
    ensures FirstRdn(MoveDn(dn, newContainer)) == FirstRdn(dn)
    ensures '=' in FirstRdn(dn) ==> ExtractNameFromDn(MoveDn(dn, newContainer)) == ExtractNameFromDn(dn)
  {
    var rdn := FirstRdn(dn);
    var moved := MoveDn(dn, newContainer);
    assert moved[|rdn|] == ',' && moved[..|rdn|] == rdn;
    SplitAtFirstComma(moved, |rdn|);
    if '=' in rdn {
      NameOfFirstRdn(dn);
      NameOfFirstRdn(moved);
    }
  }

  /**
   * Rename replaces only the first segment, by the old type prefix followed by
   * the new name, and keeps every other segment and the segment count.
   */
  lemma RenameSegments(dn: Dn, newName: string)
    requires ',' !in newName
    ensures Split(RenameDn(dn, newName), ',') == Split(dn, ',')[0 := RdnPrefix(FirstRdn(dn)) + newName]
    ensures |Split(RenameDn(dn, newName), ',')| == |Split(dn, ',')|
  {
    var exploded := Split(dn, ',');
    var prefix := RdnPrefix(exploded[0]);
    var renamed := exploded[0 := prefix + newName];
    assert ',' !in prefix by {
      assert prefix == exploded[0][..|prefix|];
    }
    assert forall i :: 0 <= i < |renamed| ==> ',' !in renamed[i];
    SplitJoin(renamed, ',');
  }

  /** The first '=' of "prefix + name" is the one closing the prefix. */
  lemma EqualsOfRenamedRdn(prefix: string, newName: string)
    requires |prefix| >= 1 && prefix[|prefix| - 1] == '=' && '=' !in prefix[..|prefix| - 1]
    ensures IndexOf(prefix + newName, '=') == |prefix| - 1
  {
    var rdn := prefix + newName;
    var k := |prefix| - 1;
    assert rdn == prefix[..k] + rdn[k..];
    IndexOfConcat(prefix[..k], rdn[k..], '=');
  }

  /** After a rename, the extracted name is the new name and the parent of a non-top-level DN is unchanged. */
  lemma RenameNameAndParent(dn: Dn, newName: string)
    requires ',' !in newName && '=' in FirstRdn(dn)
    ensures ExtractNameFromDn(RenameDn(dn, newName)) == newName
    ensures ',' in dn ==> ExtractParentDnFromDn(RenameDn(dn, newName)) == ExtractParentDnFromDn(dn)
  {
    var renamedDn := RenameDn(dn, newName);
    var prefix := RdnPrefix(FirstRdn(dn));
    var newRdn := prefix + newName;
    var parts := Split(dn, ',');
    RenameSegments(dn, newName);
    assert FirstRdn(renamedDn) == newRdn;
    assert ExtractNameFromDn(renamedDn) == newName by {
      EqualsOfRenamedRdn(prefix, newName);
      NameOfFirstRdn(renamedDn);
      assert newRdn[|prefix|..] == newName;
    }
    SplitCount(dn, ',');
    if |parts| > 1 {
      var tail := Join(parts[1..], ',');
      assert dn == parts[0] + "," + tail by {
        JoinSplit(dn, ',');
        assert parts == [parts[0]] + parts[1..];
        JoinCons(parts[0], parts[1..], ',');
      }
      assert renamedDn == newRdn + "," + tail by {
        JoinSplit(renamedDn, ',');
        assert Split(renamedDn, ',') == [newRdn] + parts[1..];
        JoinCons(newRdn, parts[1..], ',');
      }
      ParentOfDn(parts[0], tail);
      ParentOfDn(newRdn, tail);
    }
  }
}
