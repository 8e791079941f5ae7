/** The name accessors of an agent type. A full name is a namespace path and a
    class name joined by "::", such as "ns::sub::Hero". */
module AgentNames {

  /** LastIndexOf(":"): the position of the last ':' in `s`, or -1. */
  function LastColon(s: string): (k: int)
    ensures -1 <= k < |s|
    ensures k >= 0 ==> s[k] == ':' && forall i :: k < i < |s| ==> s[i] != ':'
    ensures k == -1 ==> forall i :: 0 <= i < |s| ==> s[i] != ':'
  {
    if s == [] then -1
    else if s[|s| - 1] == ':' then |s| - 1
    else LastColon(s[..|s| - 1])
  }

  /** Namespace: everything before the "::" that precedes the last name; the
      separator is assumed to be two characters wide. */
  function Namespace(fullname: string): (r: string)
    ensures |r| <= |fullname| && r == fullname[..|r|]
    ensures r != "" ==> |r| + 2 <= |fullname| && fullname[|r| + 1] == ':'
    ensures r != "" ==> forall i :: |r| + 1 < i < |fullname| ==> fullname[i] != ':'
  {
    if fullname != "" then
      var index := LastColon(fullname);
      if index > 1 then fullname[..index - 1] else ""
    else ""
  }

  /** BasicClassName: everything after the last ':', or the whole name. */
  function BasicClassName(fullname: string): (r: string)
    ensures |r| <= |fullname| && r == fullname[|fullname| - |r|..]
    ensures forall i :: 0 <= i < |r| ==> r[i] != ':'
    ensures r == fullname || fullname[|fullname| - |r| - 1] == ':'
  {
    if fullname != "" then
      var index := LastColon(fullname);
      if index > -1 then
        var b := fullname[index + 1..];
        assert forall i :: 0 <= i < |b| ==> b[i] == fullname[index + 1 + i];
        b
      else fullname
    else fullname
  }

  /** DisplayName: the display name, or the full name when it is empty. */
  function DisplayName(displayName: string, fullname: string): (r: string)
    ensures r == displayName || r == fullname
    ensures r == "" <==> displayName == "" && fullname == ""
  {
    if displayName == "" then fullname else displayName
  }

  /** The name shown is the display name whenever one is set, and showing a
      shown name again changes nothing. */
  lemma DisplayNamePrefersDisplayName(displayName: string, fullname: string)
    ensures displayName != "" ==> DisplayName(displayName, fullname) == displayName
    ensures DisplayName(DisplayName(displayName, fullname), fullname) == DisplayName(displayName, fullname)
  {
  }

  /** A name has no namespace exactly when it holds no ':' past its second
      character; then the class name is all that follows the last ':'. */
  lemma {:induction false} NamespaceEmptyWhenUnqualified(fullname: string)
    ensures Namespace(fullname) == "" <==> LastColon(fullname) <= 1
  {
    var index := LastColon(fullname);
    if index > 1 {
      assert |fullname[..index - 1]| == index - 1;
    }
  }

  /** Splitting a qualified name gives back its namespace and class name. */
  lemma {:induction false} QualifiedNameSplits(ns: string, name: string)
    requires forall i :: 0 <= i < |name| ==> name[i] != ':'
    ensures Namespace(ns + "::" + name) == ns
    ensures BasicClassName(ns + "::" + name) == name
  {
    var full := ns + "::" + name;
    var k := |ns| + 1;
    assert full[k] == ':';
    forall i | k < i < |full| ensures full[i] != ':' {
      assert full[i] == name[i - k - 1];
    }
    var index := LastColon(full);
    assert index == k;
    assert full[..k - 1] == ns;
    assert full[k + 1..] == name;
  }

  /** A name without ':' has no namespace and is its own class name. */
  lemma UnqualifiedName(name: string)
    requires forall i :: 0 <= i < |name| ==> name[i] != ':'
    ensures Namespace(name) == ""
    ensures BasicClassName(name) == name
  {
  }

  /** The namespace reading assumes a two-character separator: with a single
      ':' it drops the last character of the namespace. */
  lemma SingleColonLosesACharacter()
    ensures Namespace("ab:C") == "a" && BasicClassName("ab:C") == "C"
  {
    var s := "ab:C";
    assert s[3] != ':' && s[2] == ':';
    assert LastColon(s) == 2;
    assert s[..1] == "a";
    assert s[3..] == "C";
  }
}
