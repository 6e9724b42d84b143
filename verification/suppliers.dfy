/**
 `split_by_parenthesis`: the supplier field of a receipt name, such as
 "Acme(雅高美)", is cut into an English name and a local name at the first
 opening and the first closing parenthesis. The cut is made whenever either
 parenthesis occurs, using Python's `find` (-1 when absent) and slicing (a
 -1 bound means "one before the end", a reversed slice is empty).
 */
module Suppliers {
  import opened Strings

  /** The [English, local] pair for a supplier field; the list always has
      two entries, and a field without parentheses is its own English and
      local name. */
  function SplitByParenthesis(s: string): (r: seq<string>)
    ensures |r| == 2
    ensures '(' !in s && ')' !in s ==> r == [s, s]
    ensures '(' in s || ')' in s ==> |r[0]| < |s| && |r[1]| < |s|
  {
    var left, right := Find(s, '('), Find(s, ')');
    if !(left == -1 && right == -1) then
      [Slice(s, 0, left), Slice(s, left + 1, right)]
    else
      [s, s]
  }

  /** The field written the way receipt names carry it: "English(Local)". */
  function SupplierField(english: string, local: string): (s: string)
    ensures |s| == |english| + |local| + 2
  {
    english + ['('] + local + [')']
  }

  /** First '(' at i and first ')' at j after it: the English name is the
      text before '(' and the local name the text between the two. */
  lemma WellOrdered(s: string, i: int, j: int)
    requires 0 <= i < j < |s|
    requires s[i] == '(' && '(' !in s[..i]
    requires s[j] == ')' && ')' !in s[..j]
    ensures SplitByParenthesis(s) == [s[..i], s[i + 1..j]]
  {
    FindAt(s, '(', i);
    FindAt(s, ')', j);
  }

  /** Whatever follows the first ')' of a well-ordered field is dropped. */
  lemma {:induction false} TailIgnored(s: string, i: int, j: int, tail: string)
    requires 0 <= i < j < |s|
    requires s[i] == '(' && '(' !in s[..i]
    requires s[j] == ')' && ')' !in s[..j]
    ensures SplitByParenthesis(s[..j + 1] + tail) == SplitByParenthesis(s)
  {
    var t := s[..j + 1] + tail;
    assert t[..i] == s[..i];
    assert t[..j] == s[..j];
    assert t[i + 1..j] == s[i + 1..j];
    WellOrdered(s, i, j);
    WellOrdered(t, i, j);
  }

  /** ')' before '(': the local name is empty and the English name is the
      text before '('. */
  lemma CloseBeforeOpen(s: string, i: int, j: int)
    requires 0 <= j < i < |s|
    requires s[i] == '(' && '(' !in s[..i]
    requires s[j] == ')' && ')' !in s[..j]
    ensures SplitByParenthesis(s) == [s[..i], []]
  {
    FindAt(s, '(', i);
    FindAt(s, ')', j);
  }

  /** Only '(' present: the missing ')' reads as index -1, one before the
      end, so the local name loses the last character of the field (and is
      empty when '(' is the last character). */
  lemma OpenOnly(s: string, i: int)
    requires 0 <= i < |s|
    requires s[i] == '(' && '(' !in s[..i] && ')' !in s
    ensures SplitByParenthesis(s) == [s[..i], if i + 1 < |s| then s[i + 1..|s| - 1] else []]
  {
    FindAt(s, '(', i);
  }

  /** Only ')' present: the missing '(' reads as index -1, so the English
      name is the field minus its last character and the local name is the
      text before ')'. */
  lemma CloseOnly(s: string, j: int)
    requires 0 <= j < |s|
    requires s[j] == ')' && ')' !in s[..j] && '(' !in s
    ensures SplitByParenthesis(s) == [s[..|s| - 1], s[..j]]
  {
    FindAt(s, ')', j);
  }

  /** Writing a pair as "English(Local)" and splitting it gives the pair
      back, provided the English name has no parenthesis and the local name
      no ')'. */
  lemma SupplierRoundTrip(english: string, local: string)
    requires '(' !in english && ')' !in english && ')' !in local
    ensures SplitByParenthesis(SupplierField(english, local)) == [english, local]
  {
    var s := SupplierField(english, local);
    var i, j := |english|, |english| + 1 + |local|;
    assert s[..i] == english;
    assert s[..j] == english + ['('] + local;
    assert s[i + 1..j] == local;
    WellOrdered(s, i, j);
  }

  /** The example field "Acme(雅高美)". */
  lemma AcmeExample()
    ensures SplitByParenthesis("Acme(雅高美)") == ["Acme", "雅高美"]
  {
    SupplierRoundTrip("Acme", "雅高美");
    assert SupplierField("Acme", "雅高美") == "Acme(雅高美)";
  }
}
