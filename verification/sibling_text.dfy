/** What parents, leaves, values and new templates are as text. */
module SiblingText {
  import opened Common
  import opened PathMerge
  import opened SiblingCoalescing
  import PathText

  // Parent and leaf

  predicate IsSlashes(s: string) { forall c :: c in s ==> c == '/' }

  ghost predicate IsQuery(s: string) { s == "" || s[0] == '?' }

  lemma {:induction false} TrimRightDropsSlashes(text: string, slashes: string)
    requires IsSlashes(slashes) && (text == "" || text[|text| - 1] != '/')
    ensures TrimRight(text + slashes) == text
  {
    if slashes == "" {
      assert text + slashes == text;
    } else {
      var s, n := text + slashes, |slashes| - 1;
      assert s[..|s| - 1] == text + slashes[..n] && s[|s| - 1] == slashes[n] && slashes[n] in slashes;
      assert forall c :: c in slashes[..n] ==> c in slashes;
      TrimRightDropsSlashes(text, slashes[..n]);
    }
  }

  lemma {:induction false} TrimLeftOfSlashes(s: string)
    ensures TrimLeft(s) == "" <==> IsSlashes(s)
  {
    if s != "" {
      assert s[0] in s && forall c :: c in s <==> c == s[0] || c in s[1..];
      TrimLeftOfSlashes(s[1..]);
    }
  }

  /** The text before the query, without the slashes at its end. */
  lemma TrimmedText(text: string, slashes: string, query: string)
    requires IsSlashes(slashes) && IsQuery(query) && '?' !in text && (text == "" || text[|text| - 1] != '/')
    ensures TrimRight(Clean(text + slashes + query)) == text
  {
    SplitBefore(text + slashes, '?', query);
    TrimRightDropsSlashes(text, slashes);
  }

  lemma HasSlashesOnly(parent: string, leaf: string)
    requires '/' !in leaf
    ensures '/' in TrimLeft(parent + "/" + leaf) <==> !IsSlashes(parent)
  {
    TrimLeftOfSlashes(parent);
    Associate(parent, "/", leaf);
    TrimLeftOfSum(parent, "/" + leaf);
    if IsSlashes(parent) {
      FrontAndRest("/", leaf);
      NoSlashLeft(leaf);
    } else {
      assert ("/" + leaf)[0] == '/';
    }
  }

  lemma Cut(parent: string, leaf: string)
    requires '/' !in leaf
    ensures
      var s := parent + "/" + leaf;
      '/' in s && LastSlash(s) == |parent| && s[..|parent|] == parent && s[|parent| + 1..] == leaf
  {
    var s := parent + "/" + leaf;
    assert s[|parent|] == '/' && s[|parent| + 1..] == leaf;
    LastSlashIs(s, |parent|);
  }

  /** The leaf is what follows the last slash; the parent is what precedes it, unless that is slashes only. */
  lemma ParentAndLeafAreText(parent: string, leaf: string, slashes: string, query: string)
    requires '?' !in parent && '?' !in leaf && '/' !in leaf && leaf != ""
    requires IsSlashes(slashes) && IsQuery(query)
    ensures
      var path := parent + "/" + leaf + slashes + query;
      Leaf(path) == leaf && Parent(path) == if IsSlashes(parent) then "" else parent
  {
    var s := parent + "/" + leaf;
    assert s[|s| - 1] == leaf[|leaf| - 1] && leaf[|leaf| - 1] in leaf;
    TrimmedText(s, slashes, query);
    Cut(parent, leaf);
    HasSlashesOnly(parent, leaf);
  }

  /** A path of one segment without a slash before it has no parent. */
  lemma LeafAlone(leaf: string, slashes: string, query: string)
    requires '?' !in leaf && '/' !in leaf && IsSlashes(slashes) && IsQuery(query)
    ensures var path := leaf + slashes + query; Leaf(path) == leaf && Parent(path) == ""
  {
    assert leaf != "" ==> leaf[|leaf| - 1] in leaf;
    TrimmedText(leaf, slashes, query);
  }

  /** The key of a new template. */
  lemma NewTemplateIsText(path: string, suffix: Suffix)
    ensures NewTemplate(Parent(path), suffix) == Parent(path) + "/{id}" + suffix
  {
    assert "/" + "{id}" == "/{id}";
    Associate(Parent(path), "/", "{id}");
  }

  // Values

  predicate IsHexText(s: string) { forall c :: c in s ==> c in "0123456789abcdefABCDEF" }

  predicate AreHexGroups(a: string, b: string, c: string, d: string, e: string) {
    && |a| == 8 && |b| == 4 && |c| == 4 && |d| == 4 && |e| == 12
    && IsHexText(a) && IsHexText(b) && IsHexText(c) && IsHexText(d) && IsHexText(e)
  }

  function Hyphened(a: string, b: string, c: string, d: string, e: string): string {
    a + "-" + b + "-" + c + "-" + d + "-" + e
  }

  lemma HexIsDigitOrLetter(c: char)
    ensures IsHex(c) <==> c in "0123456789abcdefABCDEF"
  {
    if IsHex(c) {
      var i := if IsDigit(c) then c as int - '0' as int else if 'a' <= c <= 'f' then 10 + c as int - 'a' as int
        else 16 + c as int - 'A' as int;
      assert "0123456789abcdefABCDEF"[i] == c;
    }
  }

  lemma HexRange(s: string, from: nat, to: nat)
    requires from <= to <= |s|
    ensures IsHexText(s[from..to]) <==> forall i :: from <= i < to ==> IsHex(s[i])
  {
    forall i | from <= i < to ensures s[i] in s[from..to] && (IsHex(s[i]) <==> s[i] in "0123456789abcdefABCDEF") {
      assert s[from..to][i - from] == s[i];
      HexIsDigitOrLetter(s[i]);
    }
  }

  /** A UUID is five groups of hexadecimal digits, of 8, 4, 4, 4 and 12. */
  lemma UuidIsFiveGroups(s: string)
    ensures IsUuid(s) <==> exists a, b, c, d, e :: AreHexGroups(a, b, c, d, e) && s == Hyphened(a, b, c, d, e)
  {
    if |s| == 36 {
      HexRange(s, 0, 8);
      HexRange(s, 9, 13);
      HexRange(s, 14, 18);
      HexRange(s, 19, 23);
      HexRange(s, 24, 36);
    }
    if IsUuid(s) {
      var a, b, c, d, e := s[0..8], s[9..13], s[14..18], s[19..23], s[24..36];
      assert s[8] == s[13] == s[18] == s[23] == '-';
      assert s == Hyphened(a, b, c, d, e);
      assert AreHexGroups(a, b, c, d, e);
    }
    if a, b, c, d, e :| AreHexGroups(a, b, c, d, e) && s == Hyphened(a, b, c, d, e) {
      GroupsOf(a, b, c, d, e);
    }
  }

  lemma GroupsOf(a: string, b: string, c: string, d: string, e: string)
    requires AreHexGroups(a, b, c, d, e)
    ensures
      var s := Hyphened(a, b, c, d, e);
      && |s| == 36 && s[0..8] == a && s[9..13] == b && s[14..18] == c && s[19..23] == d && s[24..36] == e
      && s[8] == s[13] == s[18] == s[23] == '-'
  {
  }

  /** Among ASCII characters the decimal digits are the usual ones. */
  lemma AsciiDigits(c: char)
    requires c < '\U{80}'
    ensures IsDecimalDigit(c) <==> '0' <= c <= '9'
  {
    if '0' <= c <= '9' { assert IsZero(0x30) && 0x30 <= c as int < 0x30 + 10; }
  }

  /** A value has a space, or is a number or a UUID. */
  lemma ValueIsText(segment: string)
    ensures
      LooksLikeValue(segment) <==>
      || ' ' in segment
      || (segment != "" && forall c :: c in segment ==> IsDecimalDigit(c))
      || exists a, b, c, d, e :: AreHexGroups(a, b, c, d, e) && segment == Hyphened(a, b, c, d, e)
  {
    UuidIsFiveGroups(segment);
    if IsWildcard(segment) {
      assert segment[0] == '{' && segment[0] in segment;
      assert !IsHex('{');
      AsciiDigits('{');
    }
  }
}
