/** Strings as the gateway uses them: ASCII case folding, trimming, prefixes, and byte order. */
module Text {

  datatype Option<+T> = None | Some(value: T)

  predicate IsSpace(c: char) {
    c == ' ' || '\t' <= c <= '\r'
  }

  function TrimLeft(s: string): string {
    if s != "" && IsSpace(s[0]) then TrimLeft(s[1..]) else s
  }

  function TrimRight(s: string): string {
    if s != "" && IsSpace(s[|s| - 1]) then TrimRight(s[..|s| - 1]) else s
  }

  function Trim(s: string): string {
    TrimRight(TrimLeft(s))
  }

  /** A space, a tab, a line feed, a vertical tab, a form feed or a carriage return. */
  ghost predicate AllSpace(s: string) {
    forall c | c in s :: c as int in {32, 9, 10, 11, 12, 13}
  }

  lemma {:induction false} TrimLeftMeans(s: string) returns (left: string)
    ensures s == left + TrimLeft(s) && AllSpace(left)
    ensures TrimLeft(s) != "" ==> !AllSpace([TrimLeft(s)[0]])
  {
    left := "";
    if s != "" && IsSpace(s[0]) {
      left := TrimLeftMeans(s[1..]);
      left := [s[0]] + left;
      assert s == [s[0]] + s[1..];
    } else if s != "" {
      assert s[0] in [s[0]];
    }
  }

  lemma {:induction false} TrimRightMeans(s: string) returns (right: string)
    ensures s == TrimRight(s) + right && AllSpace(right)
    ensures TrimRight(s) != "" ==> !AllSpace([TrimRight(s)[|TrimRight(s)| - 1]]) && TrimRight(s)[0] == s[0]
  {
    right := "";
    if s != "" && IsSpace(s[|s| - 1]) {
      var front := s[..|s| - 1];
      right := TrimRightMeans(front);
      right := right + [s[|s| - 1]];
      assert s == front + [s[|s| - 1]];
    } else if s != "" {
      assert s[|s| - 1] in [s[|s| - 1]];
    }
  }

  /** Trimming takes off white space at both ends, all of it and nothing else. */
  lemma TrimMeans(s: string) returns (left: string, right: string)
    ensures s == left + Trim(s) + right && AllSpace(left) && AllSpace(right)
    ensures Trim(s) != "" ==> !AllSpace([Trim(s)[0]]) && !AllSpace([Trim(s)[|Trim(s)| - 1]])
  {
    left := TrimLeftMeans(s);
    right := TrimRightMeans(TrimLeft(s));
  }

  lemma BlankMeans(s: string)
    ensures Blank(s) <==> AllSpace(s)
  {
    var left, right := TrimMeans(s);
    if Blank(s) {
      assert s == left + right;
    } else {
      assert Trim(s)[0] in s by {
        assert s[|left|] == Trim(s)[0];
      }
    }
  }

  lemma TrimOneChar(c: char)
    requires !IsSpace(c)
    ensures Trim([c]) == [c]
  {
    assert TrimLeft([c]) == [c] && TrimRight([c]) == [c];
  }

  lemma TrimTwoChars(c: char, d: char)
    requires !IsSpace(c) && !IsSpace(d)
    ensures Trim([c, d]) == [c, d]
  {
    assert TrimLeft([c, d]) == [c, d] && TrimRight([c, d]) == [c, d];
  }

  predicate Blank(s: string) {
    Trim(s) == ""
  }

  function LowerChar(c: char): char {
    if 'A' <= c <= 'Z' then c + 32 as char else c
  }

  function UpperChar(c: char): char {
    if 'a' <= c <= 'z' then c - 32 as char else c
  }

  function Lower(s: string): string {
    seq(|s|, i requires 0 <= i < |s| => LowerChar(s[i]))
  }

  function Upper(s: string): string {
    seq(|s|, i requires 0 <= i < |s| => UpperChar(s[i]))
  }

  const CAPITALS := "ABCDEFGHIJKLMNOPQRSTUVWXYZ"
  const SMALL := "abcdefghijklmnopqrstuvwxyz"

  /** Case folding exchanges each of the twenty-six letters for its other form and nothing else. */
  lemma LettersFold(c: char)
    ensures forall k | 0 <= k < 26 :: LowerChar(CAPITALS[k]) == SMALL[k]
    ensures forall k | 0 <= k < 26 :: UpperChar(SMALL[k]) == CAPITALS[k]
    ensures c !in CAPITALS ==> LowerChar(c) == c
    ensures c !in SMALL ==> UpperChar(c) == c
  {
    assert forall k | 0 <= k < 26 :: CAPITALS[k] as int == 65 + k;
    assert forall k | 0 <= k < 26 :: SMALL[k] as int == 97 + k;
    if 'A' <= c <= 'Z' {
      assert CAPITALS[c as int - 65] == c;
    }
    if 'a' <= c <= 'z' {
      assert SMALL[c as int - 97] == c;
    }
  }

  predicate EqualFold(a: string, b: string) {
    Lower(a) == Lower(b)
  }

  lemma FoldedByUpper(a: string, b: string)
    ensures EqualFold(a, b) <==> Upper(a) == Upper(b)
  {
    if EqualFold(a, b) {
      assert |a| == |Lower(a)| == |b|;
      forall i | 0 <= i < |a|
        ensures Upper(a)[i] == Upper(b)[i]
      {
        assert Lower(a)[i] == Lower(b)[i];
      }
    }
    if Upper(a) == Upper(b) {
      assert |a| == |Upper(a)| == |b|;
      forall i | 0 <= i < |a|
        ensures Lower(a)[i] == Lower(b)[i]
      {
        assert Upper(a)[i] == Upper(b)[i];
      }
    }
  }

  predicate HasSuffix(s: string, suffix: string) {
    |suffix| <= |s| && s[|s| - |suffix|..] == suffix
  }

  function TrimSuffix(s: string, suffix: string): string {
    if HasSuffix(s, suffix) then s[..|s| - |suffix|] else s
  }

  /** A host name as certificates and authorizations compare it. */
  function HostName(s: string): string {
    Lower(TrimSuffix(Trim(s), "."))
  }

  /** Two texts are one host name if and only if they agree but for outer white space, one trailing dot and
      letter case. */
  lemma SameHostExactly(a: string, b: string)
    ensures var x, y := Trim(a), Trim(b);
      HostName(a) == HostName(b) <==>
        EqualFold(if x != "" && x[|x| - 1] == '.' then x[..|x| - 1] else x, if y != "" && y[|y| - 1] == '.' then y[..|y| - 1] else y)
  {
    LastDot(Trim(a));
    LastDot(Trim(b));
  }

  lemma LastDot(s: string)
    ensures HasSuffix(s, ".") <==> s != "" && s[|s| - 1] == '.'
  {
    if s != "" {
      assert s[|s| - 1..] == [s[|s| - 1]];
    }
  }

  /** What precedes the first `c`, or all of `s`. */
  function Before(s: string, c: char): string {
    if s == "" || s[0] == c then "" else [s[0]] + Before(s[1..], c)
  }

  function Join(parts: seq<string>, separator: string): string {
    if parts == [] then ""
    else if |parts| == 1 then parts[0]
    else parts[0] + separator + Join(parts[1..], separator)
  }

  /** The pieces between separators; one piece more than there are separators. */
  function Split(s: string, c: char): (parts: seq<string>)
    ensures parts != []
  {
    if c !in s then [s]
    else
      var head := Before(s, c);
      BeforeShorter(s, c);
      [head] + Split(s[|head| + 1..], c)
  }

  lemma BeforeShorter(s: string, c: char)
    requires c in s
    ensures |Before(s, c)| < |s| && s[|Before(s, c)|] == c && Before(s, c) == s[..|Before(s, c)|]
    ensures c !in Before(s, c)
  {
    if s[0] != c {
      BeforeShorter(s[1..], c);
    }
  }

  /** Splitting and joining give the text back, and no piece holds a separator. */
  lemma {:induction false} SplitThenJoin(s: string, c: char)
    ensures Join(Split(s, c), [c]) == s
    ensures forall part | part in Split(s, c) :: c !in part
    decreases |s|
  {
    if c in s {
      BeforeShorter(s, c);
      var head := Before(s, c);
      var rest := s[|head| + 1..];
      SplitThenJoin(rest, c);
      assert Split(s, c)[0] == head && Split(s, c)[1..] == Split(rest, c);
      assert s == head + [c] + rest;
    }
  }

  lemma SplitFirst(s: string, c: char)
    ensures c in s ==> |Before(s, c)| < |s| && Split(s, c) == [Before(s, c)] + Split(s[|Before(s, c)| + 1..], c)
    ensures c !in s ==> Split(s, c) == [s]
  {
    if c in s {
      BeforeShorter(s, c);
    }
  }

  lemma {:induction false} SplitAcross(a: string, b: string, c: char)
    ensures Split(a + [c] + b, c) == Split(a, c) + Split(b, c)
    decreases |a|
  {
    hide Split, Before;
    var s := a + [c] + b;
    assert s[|a|] == c && a + ([c] + b) == s;
    BeforePrefix(a, [c] + b, c);
    SplitFirst(s, c);
    SplitFirst(a, c);
    var n := |Before(s, c)| + 1;
    if c in a {
      assert s[n..] == a[n..] + [c] + b;
      SplitAcross(a[n..], b, c);
      assert [Before(a, c)] + (Split(a[n..], c) + Split(b, c)) == [Before(a, c)] + Split(a[n..], c) + Split(b, c);
    } else {
      assert s[n..] == b;
    }
  }

  lemma {:induction false} BeforePrefix(a: string, b: string, c: char)
    requires b != "" && b[0] == c
    ensures Before(a + b, c) == if c in a then Before(a, c) else a
  {
    if a != "" {
      assert (a + b)[1..] == a[1..] + b;
      if a[0] != c {
        BeforePrefix(a[1..], b, c);
        assert c in a <==> c in a[1..];
      }
    } else {
      assert a + b == b;
    }
  }

  // ---- byte order ----

  predicate AtMost(a: string, b: string) {
    a == "" || (b != "" && (a[0] < b[0] || (a[0] == b[0] && AtMost(a[1..], b[1..]))))
  }

  lemma AtMostTotal(a: string, b: string)
    ensures AtMost(a, b) || AtMost(b, a)
    ensures AtMost(a, b) && AtMost(b, a) ==> a == b
  {
    if a != "" && b != "" && a[0] == b[0] {
      AtMostTotal(a[1..], b[1..]);
      assert a == [a[0]] + a[1..] && b == [b[0]] + b[1..];
    }
  }

  /** Byte order: a prefix comes first, and otherwise the first difference decides. */
  lemma {:induction false} AtMostMeans(a: string, b: string)
    ensures AtMost(a, b) <==> a <= b || exists k :: SmallerAt(a, b, k)
  {
    if a != "" && b != "" {
      if a[0] == b[0] {
        AtMostMeans(a[1..], b[1..]);
        assert a == [a[0]] + a[1..] && b == [b[0]] + b[1..];
        assert a <= b <==> a[1..] <= b[1..];
        if k :| SmallerAt(a[1..], b[1..], k) {
          assert a[..k + 1] == [a[0]] + a[1..][..k] && b[..k + 1] == [b[0]] + b[1..][..k];
          assert SmallerAt(a, b, k + 1);
        }
        if k :| SmallerAt(a, b, k) {
          assert k > 0;
          assert a[1..][..k - 1] == a[..k][1..] && b[1..][..k - 1] == b[..k][1..];
          assert SmallerAt(a[1..], b[1..], k - 1);
        }
      } else {
        assert a[0] < b[0] ==> SmallerAt(a, b, 0);
        if k :| SmallerAt(a, b, k) && k > 0 {
          assert a[..k][0] == b[..k][0];
        }
      }
    }
  }

  ghost predicate SmallerAt(a: string, b: string, k: int) {
    0 <= k < |a| && k < |b| && a[..k] == b[..k] && a[k] < b[k]
  }

  lemma AtMostTransitive(a: string, b: string, c: string)
    requires AtMost(a, b) && AtMost(b, c)
    ensures AtMost(a, c)
  {
    if a != "" && a[0] == b[0] && b[0] == c[0] {
      AtMostTransitive(a[1..], b[1..], c[1..]);
    }
  }
}
