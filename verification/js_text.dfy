/** The few JavaScript string operations the listing query relies on:
    String.prototype.trim, String.prototype.toLowerCase and
    String.prototype.includes, on strings modelled as `seq<char>`. A Dafny
    `char` is a Unicode scalar value, not a UTF-16 code unit; on well-formed
    strings, trim and includes give the same answers on scalar values as
    JavaScript's versions do on code units, since every white-space code
    point is a single code unit and a match of well-formed strings never
    starts or ends inside a surrogate pair. */
module JsText {

  /** The code points ECMA-262 calls WhiteSpace or LineTerminator. Both
      String.prototype.trim and Number() strip exactly these from the ends
      of a string. */
  predicate IsTrimmable(c: char) {
    || c == '\t' || c == '\n' || c == '\U{000B}' || c == '\U{000C}' || c == '\r'
    || c == ' ' || c == '\U{00A0}' || c == '\U{1680}'
    || ('\U{2000}' <= c <= '\U{200A}')
    || c == '\U{2028}' || c == '\U{2029}' || c == '\U{202F}' || c == '\U{205F}'
    || c == '\U{3000}' || c == '\U{FEFF}'
  }

  predicate AllTrimmable(s: string) {
    forall i :: 0 <= i < |s| ==> IsTrimmable(s[i])
  }

  /** `s` with its leading white space removed. */
  function TrimStart(s: string): (r: string)
    ensures |r| <= |s| && r == s[|s| - |r|..]
    ensures r == [] || !IsTrimmable(r[0])
    ensures AllTrimmable(s[..|s| - |r|])
    ensures AllTrimmable(s) ==> r == []
  {
    if s != [] && IsTrimmable(s[0]) then
      var r := TrimStart(s[1..]);
      assert s[1..][..|s| - 1 - |r|] == s[1..|s| - |r|];
      r
    else s
  }

  /** `s` with its trailing white space removed. */
  function TrimEnd(s: string): (r: string)
    ensures |r| <= |s| && r == s[..|r|]
    ensures r == [] || !IsTrimmable(r[|r| - 1])
    ensures AllTrimmable(s[|r|..])
  {
    if s != [] && IsTrimmable(s[|s| - 1]) then
      var r := TrimEnd(s[..|s| - 1]);
      assert s[..|s| - 1][|r|..] + [s[|s| - 1]] == s[|r|..];
      r
    else s
  }

  /** String.prototype.trim. The result is empty exactly when every
      character of `s` is white space. */
  function Trim(s: string): (r: string)
    ensures r == [] <==> AllTrimmable(s)
  {
    var t := TrimStart(s);
    var r := TrimEnd(t);
    assert r == [] ==> AllTrimmable(s) by {
      if r == [] {
        assert s == s[..|s| - |t|] + t;
        assert AllTrimmable(t[|r|..]);
      }
    }
    r
  }

  /** Lower-casing of one character: the ASCII letters A-Z map to a-z and
      every other character is its own lower case. */
  function LowerChar(c: char): char {
    if 'A' <= c <= 'Z' then (c as int + 32) as char else c
  }

  /** String.prototype.toLowerCase, restricted to the ASCII letters. */
  function ToLower(s: string): (r: string)
    ensures |r| == |s|
    ensures forall i :: 0 <= i < |r| ==> !('A' <= r[i] <= 'Z')
    ensures forall i :: 0 <= i < |s| && !('A' <= s[i] <= 'Z') ==> r[i] == s[i]
    ensures forall i :: 0 <= i < |s| && 'A' <= s[i] <= 'Z' ==> r[i] as int == s[i] as int + 32
  {
    seq(|s|, i requires 0 <= i < |s| => LowerChar(s[i]))
  }

  /** `needle` occurs in `hay` starting at position `i`. */
  predicate OccursAt(hay: string, needle: string, i: int) {
    0 <= i && i + |needle| <= |hay| && hay[i..i + |needle|] == needle
  }

  /** String.prototype.includes: does `needle` occur anywhere in `hay`?
      The empty string occurs in every string. */
  function Includes(hay: string, needle: string): (r: bool)
    ensures needle == [] ==> r
    ensures r ==> |needle| <= |hay|
    decreases |hay|
  {
    if |needle| > |hay| then false
    else hay[..|needle|] == needle || Includes(hay[1..], needle)
  }

  /** Includes agrees with its declarative definition: some position of
      `hay` starts an occurrence of `needle`. */
  lemma {:induction false} IncludesIff(hay: string, needle: string)
    ensures Includes(hay, needle) <==> exists i :: OccursAt(hay, needle, i)
    decreases |hay|
  {
    if |needle| > |hay| {
      assert forall i :: !OccursAt(hay, needle, i);
    } else if hay[..|needle|] == needle {
      assert OccursAt(hay, needle, 0);
    } else {
      IncludesIff(hay[1..], needle);
      if Includes(hay[1..], needle) {
        var i :| OccursAt(hay[1..], needle, i);
        assert hay[1..][i..i + |needle|] == hay[i + 1..i + 1 + |needle|];
        assert OccursAt(hay, needle, i + 1);
      } else {
        forall i | OccursAt(hay, needle, i) ensures false {
          assert i != 0;
          assert hay[1..][i - 1..i - 1 + |needle|] == hay[i..i + |needle|];
          assert OccursAt(hay[1..], needle, i - 1);
        }
      }
    }
  }

  /** Removing white space from both ends does not depend on how much
      white space there was. */
  lemma {:induction false} TrimIgnoresPadding(left: string, s: string, right: string)
    requires AllTrimmable(left) && AllTrimmable(right)
    ensures Trim(left + s + right) == Trim(s)
  {
    assert left + s + right == left + (s + right);
    TrimStartIgnoresPadding(left, s + right);
    TrimEndIgnoresPadding(TrimStart(s + right), right, s);
    calc {
      Trim(left + s + right);
      TrimEnd(TrimStart(left + (s + right)));
      TrimEnd(TrimStart(s + right));
      TrimEnd(TrimStart(s));
      Trim(s);
    }
  }

  lemma {:induction false} TrimStartIgnoresPadding(left: string, s: string)
    requires AllTrimmable(left)
    ensures TrimStart(left + s) == TrimStart(s)
    decreases |left|
  {
    var whole := left + s;
    if left == [] {
      assert whole == s;
    } else {
      assert whole[0] == left[0];
      assert IsTrimmable(whole[0]);
      assert whole[1..] == left[1..] + s;
      assert AllTrimmable(left[1..]) by {
        forall i | 0 <= i < |left| - 1 ensures IsTrimmable(left[1..][i]) {
          assert left[1..][i] == left[i + 1];
        }
      }
      TrimStartIgnoresPadding(left[1..], s);
      assert TrimStart(whole) == TrimStart(whole[1..]);
    }
  }

  /** Trimming the end of `TrimStart(s + right)` gives the same as trimming
      both ends of `s`. */
  lemma {:induction false} TrimEndIgnoresPadding(t: string, right: string, s: string)
    requires AllTrimmable(right)
    requires t == TrimStart(s + right)
    ensures TrimEnd(t) == TrimEnd(TrimStart(s))
    decreases |s|
  {
    if s != [] && IsTrimmable(s[0]) {
      assert t == TrimStart(s[1..] + right) by {
        assert (s + right)[0] == s[0] && (s + right)[1..] == s[1..] + right;
      }
      TrimEndIgnoresPadding(t, right, s[1..]);
    } else if s != [] {
      assert t == s + right by {
        assert (s + right)[0] == s[0];
      }
      TrimEndSuffix(s, right);
    } else {
      assert right + [] == right;
      TrimStartIgnoresPadding(right, []);
    }
  }

  lemma {:induction false} TrimEndSuffix(s: string, right: string)
    requires AllTrimmable(right)
    ensures TrimEnd(s + right) == TrimEnd(s)
    decreases |right|
  {
    if right != [] {
      assert (s + right)[..|s + right| - 1] == s + right[..|right| - 1];
      TrimEndSuffix(s, right[..|right| - 1]);
    } else {
      assert s + right == s;
    }
  }
}
