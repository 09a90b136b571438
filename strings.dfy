/**
 * The JavaScript string operations the authentication core relies on:
 * the `\s` character class, `replace(/\s/g, "")`, `trim`, ASCII case
 * mapping, `startsWith`, `indexOf` and `split`.
 */
module Strings {

  /** JavaScript's `\s`: WhiteSpace and LineTerminator code points. */
  predicate IsWhitespace(c: char) {
    || c == ' ' || c == '\t' || c == '\n' || c == '\r'
    || c as int == 0x0B || c as int == 0x0C || c as int == 0xA0
    || c as int == 0x1680 || (0x2000 <= c as int <= 0x200A)
    || c as int == 0x2028 || c as int == 0x2029 || c as int == 0x202F
    || c as int == 0x205F || c as int == 0x3000 || c as int == 0xFEFF
  }

  predicate IsDigit(c: char) { '0' <= c <= '9' }

  predicate IsUpper(c: char) { 'A' <= c <= 'Z' }

  predicate IsLower(c: char) { 'a' <= c <= 'z' }

  predicate AllDigits(s: string) {
    forall i :: 0 <= i < |s| ==> IsDigit(s[i])
  }

  predicate NoWhitespace(s: string) {
    forall i :: 0 <= i < |s| ==> !IsWhitespace(s[i])
  }

  predicate StartsWith(s: string, prefix: string) {
    |prefix| <= |s| && s[..|prefix|] == prefix
  }

  /** `s.replace(/\s/g, "")` */
  function RemoveWhitespace(s: string): (r: string)
    ensures NoWhitespace(r)
    ensures |r| <= |s|
  {
    if s == [] then []
    else (if IsWhitespace(s[0]) then [] else [s[0]]) + RemoveWhitespace(s[1..])
  }

  lemma {:induction false} RemoveWhitespaceOfClean(s: string)
    requires NoWhitespace(s)
    ensures RemoveWhitespace(s) == s
  {
    if s != [] {
      RemoveWhitespaceOfClean(s[1..]);
    }
  }

  lemma {:induction false} RemoveWhitespaceAppend(a: string, b: string)
    ensures RemoveWhitespace(a + b) == RemoveWhitespace(a) + RemoveWhitespace(b)
  {
    if a == [] {
      assert a + b == b;
    } else {
      assert (a + b)[1..] == a[1..] + b;
      RemoveWhitespaceAppend(a[1..], b);
    }
  }

  /** Removing whitespace undoes inserting one space between two clean strings. */
  lemma RemoveSpaceBetween(pre: string, post: string)
    requires NoWhitespace(pre) && NoWhitespace(post)
    ensures RemoveWhitespace(pre + " " + post) == pre + post
  {
    var space := " ";
    assert RemoveWhitespace(space) == [] by {
      assert IsWhitespace(space[0]) && space[1..] == [];
    }
    assert RemoveWhitespace(pre + space) == pre by {
      RemoveWhitespaceAppend(pre, space);
      RemoveWhitespaceOfClean(pre);
    }
    assert RemoveWhitespace(pre + space + post) == pre + post by {
      RemoveWhitespaceAppend(pre + space, post);
      RemoveWhitespaceOfClean(post);
    }
  }

  /** ASCII part of `toUpperCase` on one character. */
  function UpperChar(c: char): char {
    if IsLower(c) then (c as int - 32) as char else c
  }

  /** ASCII part of `toLowerCase` on one character. */
  function LowerChar(c: char): char {
    if IsUpper(c) then (c as int + 32) as char else c
  }

  function ToUpper(s: string): (r: string)
    ensures |r| == |s|
    ensures forall i :: 0 <= i < |s| ==> (if IsLower(s[i]) then IsUpper(r[i]) else r[i] == s[i])
    ensures forall i :: 0 <= i < |s| && IsLower(s[i]) ==> r[i] as int == s[i] as int - 32
  {
    seq(|s|, i requires 0 <= i < |s| => UpperChar(s[i]))
  }

  function ToLower(s: string): (r: string)
    ensures |r| == |s|
    ensures forall i :: 0 <= i < |s| ==> (if IsUpper(s[i]) then IsLower(r[i]) else r[i] == s[i])
    ensures forall i :: 0 <= i < |s| && IsUpper(s[i]) ==> r[i] as int == s[i] as int + 32
  {
    seq(|s|, i requires 0 <= i < |s| => LowerChar(s[i]))
  }

  /**
   * Upper-casing first loses nothing that lower-casing keeps, and the
   * other way round: both spellings of a letter fold to the same string.
   */
  lemma CaseFoldsAgree(s: string)
    ensures ToLower(ToUpper(s)) == ToLower(s)
    ensures ToUpper(ToLower(s)) == ToUpper(s)
  {
  }

  function TrimStart(s: string): (r: string)
    ensures |r| <= |s| && s[|s| - |r|..] == r
    ensures forall i :: 0 <= i < |s| - |r| ==> IsWhitespace(s[i])
    ensures r == [] || !IsWhitespace(r[0])
  {
    if s != [] && IsWhitespace(s[0]) then
      var rest := TrimStart(s[1..]);
      assert s[|s| - |rest|..] == s[1..][|s| - 1 - |rest|..];
      assert forall i :: 0 <= i < |s| - |rest| ==> IsWhitespace(s[i]) by {
        forall i | 1 <= i < |s| - |rest| ensures IsWhitespace(s[i]) {
          assert s[i] == s[1..][i - 1];
        }
      }
      rest
    else s
  }

  function TrimEnd(s: string): (r: string)
    ensures |r| <= |s| && s[..|r|] == r
    ensures forall i :: |r| <= i < |s| ==> IsWhitespace(s[i])
    ensures r == [] || !IsWhitespace(r[|r| - 1])
  {
    if s != [] && IsWhitespace(s[|s| - 1]) then
      var rest := TrimEnd(s[..|s| - 1]);
      assert s[..|rest|] == s[..|s| - 1][..|rest|];
      assert forall i :: |rest| <= i < |s| ==> IsWhitespace(s[i]) by {
        forall i | |rest| <= i < |s| - 1 ensures IsWhitespace(s[i]) {
          assert s[i] == s[..|s| - 1][i];
        }
      }
      rest
    else s
  }

  /** `r` is `s` from index `lead` on, with only whitespace cut from either end. */
  predicate WhitespaceAround(s: string, lead: int, r: string) {
    && 0 <= lead <= |s| - |r|
    && r == s[lead..lead + |r|]
    && (forall i :: 0 <= i < lead ==> IsWhitespace(s[i]))
    && (forall i :: lead + |r| <= i < |s| ==> IsWhitespace(s[i]))
  }

  /** `s.trim()`: JavaScript trims the same code points `\s` matches. */
  function Trim(s: string): (r: string)
    ensures |r| <= |s|
    ensures r == [] || (!IsWhitespace(r[0]) && !IsWhitespace(r[|r| - 1]))
  {
    var front := TrimStart(s);
    assert TrimEnd(front) != [] ==> TrimEnd(front)[0] == front[0];
    TrimEnd(front)
  }

  /** Trimming keeps a contiguous part of the input and cuts only whitespace around it. */
  lemma TrimCutsOnlyWhitespace(s: string)
    ensures exists lead :: WhitespaceAround(s, lead, Trim(s))
  {
    var front := TrimStart(s);
    assert Trim(s) == TrimEnd(front);
    CutBothEnds(s, front, TrimEnd(front));
  }

  /** Cutting whitespace from the front of `s`, then from the back of what is left. */
  lemma CutBothEnds(s: string, t: string, r: string)
    requires |t| <= |s| && s[|s| - |t|..] == t
    requires forall i :: 0 <= i < |s| - |t| ==> IsWhitespace(s[i])
    requires |r| <= |t| && t[..|r|] == r
    requires forall i :: |r| <= i < |t| ==> IsWhitespace(t[i])
    ensures WhitespaceAround(s, |s| - |t|, r)
  {
    var lead := |s| - |t|;
    assert s[lead..lead + |r|] == s[lead..][..|r|];
    forall i | lead + |r| <= i < |s| ensures IsWhitespace(s[i]) {
      assert s[i] == t[i - lead];
    }
  }

  /**
   * `s.length`: JavaScript strings are counted in UTF-16 code units, so a
   * code point outside the Basic Multilingual Plane counts twice.
   */
  function Utf16Length(s: string): (n: nat)
    ensures |s| <= n <= 2 * |s|
    ensures (forall i :: 0 <= i < |s| ==> (s[i] as int) < 0x1_0000) ==> n == |s|
  {
    if s == [] then 0
    else (if (s[0] as int) < 0x1_0000 then 1 else 2) + Utf16Length(s[1..])
  }

  /** Index of the first `c` in `s`, or `|s|` when there is none. */
  function IndexOf(s: string, c: char): (k: nat)
    ensures k <= |s|
    ensures k < |s| ==> s[k] == c
    ensures forall j :: 0 <= j < k ==> s[j] != c
  {
    if s == [] then 0
    else if s[0] == c then 0
    else 1 + IndexOf(s[1..], c)
  }

  /** The first-position characterisation determines `IndexOf`. */
  lemma IndexOfIs(s: string, c: char, k: nat)
    requires k <= |s|
    requires k < |s| ==> s[k] == c
    requires forall j :: 0 <= j < k ==> s[j] != c
    ensures IndexOf(s, c) == k
  {
    var m := IndexOf(s, c);
    assert m < |s| ==> s[m] == c;
  }

  /** `s.split(sep)` for a one-character separator: never empty. */
  function Split(s: string, sep: char): (parts: seq<string>)
    ensures |parts| >= 1
    decreases |s|
  {
    var k := IndexOf(s, sep);
    if k == |s| then [s] else [s[..k]] + Split(s[k + 1..], sep)
  }

  lemma SplitWithoutSeparator(s: string, sep: char)
    requires sep !in s
    ensures Split(s, sep) == [s]
  {
    assert IndexOf(s, sep) == |s|;
  }

  /** Three separator-free segments joined by the separator split back into those three. */
  lemma SplitThree(a: string, b: string, c: string, sep: char)
    requires sep !in a && sep !in b && sep !in c
    ensures Split(a + [sep] + b + [sep] + c, sep) == [a, b, c]
  {
    var rest := b + [sep] + c;
    assert a + [sep] + b + [sep] + c == a + [sep] + rest;
    calc {
      Split(a + [sep] + rest, sep);
      { SplitAppend(a, rest, sep); }
      Split(a, sep) + Split(rest, sep);
      { SplitAppend(b, c, sep); }
      Split(a, sep) + (Split(b, sep) + Split(c, sep));
      { SplitWithoutSeparator(a, sep); SplitWithoutSeparator(b, sep); SplitWithoutSeparator(c, sep); }
      [a] + ([b] + [c]);
    }
  }

  lemma TakeAppend<T>(x: seq<T>, y: seq<T>, n: nat)
    requires n <= |x|
    ensures (x + y)[..n] == x[..n]
  {
  }

  lemma DropAppend<T>(x: seq<T>, y: seq<T>, n: nat)
    requires n <= |x|
    ensures (x + y)[n..] == x[n..] + y
  {
  }

  /** The first separator of `a + sep + b` is the first of `a`, or the joining one. */
  lemma IndexOfJoined(a: string, b: string, sep: char)
    ensures IndexOf(a + [sep] + b, sep) == IndexOf(a, sep)
  {
    var s := a + [sep] + b;
    var k := IndexOf(a, sep);
    assert forall j :: 0 <= j < |a| ==> s[j] == a[j];
    IndexOfIs(s, sep, k);
  }

  /** The first segment of `a + sep + b` is `a` when `a` has no separator. */
  lemma SplitAtFirst(a: string, b: string, sep: char)
    requires IndexOf(a, sep) == |a|
    ensures Split(a + [sep] + b, sep) == [a] + Split(b, sep)
  {
    var s := a + [sep] + b;
    IndexOfJoined(a, b, sep);
    assert s[..|a|] == a by {
      TakeAppend(a + [sep], b, |a|);
      TakeAppend(a, [sep], |a|);
    }
    assert s[|a| + 1..] == b by {
      DropAppend(a + [sep], b, |a| + 1);
    }
  }

  /** Otherwise the first separator of `a` ends the first segment. */
  lemma SplitBeforeFirst(a: string, b: string, sep: char)
    requires IndexOf(a, sep) < |a|
    ensures var k := IndexOf(a, sep);
      Split(a + [sep] + b, sep) == [a[..k]] + Split(a[k + 1..] + [sep] + b, sep)
  {
    var s := a + [sep] + b;
    var k := IndexOf(a, sep);
    IndexOfJoined(a, b, sep);
    assert s[..k] == a[..k] by {
      TakeAppend(a + [sep], b, k);
      TakeAppend(a, [sep], k);
    }
    assert s[k + 1..] == a[k + 1..] + [sep] + b by {
      DropAppend(a + [sep], b, k + 1);
      DropAppend(a, [sep], k + 1);
    }
  }

  lemma AppendAssociative<T>(x: seq<T>, y: seq<T>, z: seq<T>)
    ensures x + (y + z) == (x + y) + z
  {
  }

  /** Joining two strings with the separator joins their parts. */
  lemma {:induction false} SplitAppend(a: string, b: string, sep: char)
    ensures Split(a + [sep] + b, sep) == Split(a, sep) + Split(b, sep)
    decreases |a|
  {
    var k := IndexOf(a, sep);
    if k == |a| {
      assert Split(a, sep) == [a];
      SplitAtFirst(a, b, sep);
    } else {
      var rest := a[k + 1..];
      var head, left, right := [a[..k]], Split(rest, sep), Split(b, sep);
      assert Split(a, sep) == head + left;
      assert Split(a + [sep] + b, sep) == head + (left + right) by {
        SplitBeforeFirst(a, b, sep);
        SplitAppend(rest, b, sep);
      }
      AppendAssociative(head, left, right);
    }
  }
}
