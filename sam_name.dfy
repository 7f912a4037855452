/**
 * The pre-Windows 2000 logon name (sAMAccountName) edit: its length limit,
 * the "DOMAIN\" text shown beside it, and the check run before the value is
 * written. The set of characters the check refuses is defined outside this
 * editor and is a parameter; the domain name is a parameter.
 */
module SamName {
  import opened QtText

  const CLASS_COMPUTER: string := "computer"

  /** The error text shown when the check fails; it lists the refused characters. */
  const SAM_NAME_ERROR: string :=
    "Input field for Logon name (pre-Windows 2000) contains one or more of the following illegal characters: @ \" [ ] : ; | = + * ? < > / \\ ,"

  /** The characters the error text names. */
  const LISTED_BAD_CHARS: set<char> :=
    {'@', '"', '[', ']', ':', ';', '|', '=', '+', '*', '?', '<', '>', '/', '\\', ','}

  /** The edit's length limit: 16 characters for computers, 20 for every other class. */
  function MaxLength(objectClass: string): (n: int)
    ensures objectClass == CLASS_COMPUTER ==> n == 16
    ensures objectClass != CLASS_COMPUTER ==> n == 20
  {
    if objectClass == CLASS_COMPUTER then 16 else 20
  }

  /**
   * The domain text: the part of the domain name before its first '.' (all
   * of it when there is none), followed by a backslash.
   */
  function DomainText(domain: string): (r: string)
    ensures |r| >= 1 && r[|r| - 1] == '\\'
    ensures StartsWith(domain, r[..|r| - 1]) && '.' !in r[..|r| - 1]
    ensures |r| - 1 == |domain| || domain[|r| - 1] == '.'
  {
    var domainName := Split(domain, '.')[0];
    FirstSplitPart(domain, '.');
    domainName + "\\"
  }

  /** The first part of a split is the text up to the first separator, or everything. */
  lemma FirstSplitPart(s: string, sep: char)
    ensures var p := Split(s, sep)[0];
            StartsWith(s, p) && sep !in p && (|p| == |s| || s[|p|] == sep)
  {
    var i := IndexOf(s, sep);
    if 0 <= i {
      SplitUnfold(s, sep);
    }
  }

  /** string_contains_bad_chars: some character of the value is in the given set. */
  predicate ContainsBadChars(value: string, badChars: set<char>)
  {
    exists i :: 0 <= i < |value| && value[i] in badChars
  }

  /** The value the check accepts: no refused character and no trailing '.'. */
  predicate SamNameValid(value: string, badChars: set<char>)
  {
    !ContainsBadChars(value, badChars) && !EndsWith(value, ".")
  }

  /** A trailing dot is refused whatever the character set. */
  lemma TrailingDotRefused(value: string, badChars: set<char>)
    requires |value| > 0 && value[|value| - 1] == '.'
    ensures !SamNameValid(value, badChars)
  {
    assert value[|value| - 1..] == ".";
  }

  /**
   * "host." holds none of the characters the error text names, yet it is
   * refused, and the warning shown blames illegal characters.
   */
  lemma TrailingDotBlamedOnCharacters()
    ensures !ContainsBadChars("host.", LISTED_BAD_CHARS) && !SamNameValid("host.", LISTED_BAD_CHARS)
  {
    TrailingDotRefused("host.", LISTED_BAD_CHARS);
  }

  /** A value without refused characters is accepted exactly when it does not end in '.'. */
  lemma CleanValueValid(value: string, badChars: set<char>)
    requires !ContainsBadChars(value, badChars)
    ensures SamNameValid(value, badChars) <==> |value| == 0 || value[|value| - 1] != '.'
  {
    if |value| > 0 && value[|value| - 1] == '.' {
      TrailingDotRefused(value, badChars);
    }
  }

  /** QLineEdit::setText under a length limit: longer text is cut at the limit. */
  function Truncated(value: string, maxLength: int): (r: string)
    requires maxLength >= 0
    ensures |r| <= maxLength && StartsWith(value, r)
    ensures |value| <= maxLength ==> r == value
  {
    if |value| <= maxLength then value else value[..maxLength]
  }

  /** The edit: its line edit text, its length limit, the domain label beside it and the warnings shown. */
  class SamNameEdit {
    const maxLength: nat
    var domainEditText: string
    var text: string
    var warnings: seq<string>

    /** The constructor sets the length limit for the object class and the domain label. */
    constructor (objectClass: string, domain: string)
      ensures maxLength == MaxLength(objectClass)
      ensures domainEditText == DomainText(domain)
      ensures text == "" && warnings == []
    {
      maxLength := MaxLength(objectClass);
      domainEditText := DomainText(domain);
      text := "";
      warnings := [];
    }

    /** load: the object's sAMAccountName becomes the text, cut at the length limit. */
    method Load(value: string)
      modifies this
      ensures text == Truncated(value, maxLength)
      ensures domainEditText == old(domainEditText) && warnings == old(warnings)
    {
      text := Truncated(value, maxLength);
    }

    /**
     * verify: the text passes when it has no refused character and does not
     * end in '.'; otherwise a warning is shown and the check fails. The
     * directory connection and the DN are not consulted.
     */
    method Verify(badChars: set<char>, dn: string) returns (ok: bool)
      modifies this
      ensures ok <==> SamNameValid(text, badChars)
      ensures text == old(text) && domainEditText == old(domainEditText)
      ensures warnings == old(warnings) + (if ok then [] else [SAM_NAME_ERROR])
    {
      var containsBadChars := ContainsBadChars(text, badChars);
      var endsWithDot := EndsWith(text, ".");
      var valueIsValid := !containsBadChars && !endsWithDot;
      if !valueIsValid {
        warnings := warnings + [SAM_NAME_ERROR];
        return false;
      }
      return true;
    }
  }
}
