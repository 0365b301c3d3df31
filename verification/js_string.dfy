/** The JavaScript string operations the board relies on: `toLowerCase`
    (ASCII letters), `includes`, `Array.prototype.join`, `split(' ')` and
    `trim`. */
module JsString {

  /** `toLowerCase` on one character: ASCII capitals map to small letters,
      everything else is kept. */
  function LowerChar(c: char): (d: char)
  {
    if 'A' <= c <= 'Z' then (c as int - 'A' as int + 'a' as int) as char else c
  }

  /** `s.toLowerCase()`. */
  function Lower(s: string): (r: string)
    ensures |r| == |s|
  {
    if s == [] then [] else [LowerChar(s[0])] + Lower(s[1..])
  }

  /** Lowering works character by character. */
  lemma {:induction false} LowerPointwise(s: string)
    ensures forall i :: 0 <= i < |s| ==> Lower(s)[i] == LowerChar(s[i])
  {
    if s != [] {
      LowerPointwise(s[1..]);
    }
  }

  /** Lowering twice is lowering once. */
  lemma {:induction false} LowerIdempotent(s: string)
    ensures Lower(Lower(s)) == Lower(s)
  {
    var l := Lower(s);
    LowerPointwise(s);
    LowerPointwise(l);
    forall i | 0 <= i < |l| ensures Lower(l)[i] == l[i] {
      assert l[i] == LowerChar(s[i]);
    }
  }

  /** `s.includes(p)`: `p` occurs in `s` as a contiguous block. */
  predicate Contains(s: string, p: string)
  {
    p <= s || (|s| > 0 && Contains(s[1..], p))
  }

  /** The empty pattern occurs everywhere, and an occurrence is never longer
      than the text it occurs in. */
  lemma {:induction false} ContainsBasics(s: string, p: string)
    ensures Contains(s, "")
    ensures Contains(s, p) ==> |p| <= |s|
  {
    assert "" <= s;
    if |s| > 0 && !(p <= s) {
      ContainsBasics(s[1..], p);
    }
  }

  /** `p` occurs in `s` starting at index `i`. */
  predicate OccursAt(s: string, p: string, i: int)
  {
    0 <= i <= |s| - |p| && s[i..i + |p|] == p
  }

  /** `includes` agrees with the index-based reading: `p` occurs in `s`
      exactly when it starts at some index of `s`. */
  lemma {:induction false} ContainsAt(s: string, p: string)
    ensures Contains(s, p) <==> exists i :: OccursAt(s, p, i)
  {
    if p <= s {
      assert s[0..|p|] == p;
      assert OccursAt(s, p, 0);
    }
    if |s| > 0 {
      var tail := s[1..];
      ContainsAt(tail, p);
      if exists i :: OccursAt(tail, p, i) {
        var i :| OccursAt(tail, p, i);
        assert tail[i..i + |p|] == s[i + 1..i + 1 + |p|];
        assert OccursAt(s, p, i + 1);
      }
      if exists i :: OccursAt(s, p, i) {
        var i :| OccursAt(s, p, i);
        if i > 0 {
          assert tail[i - 1..i - 1 + |p|] == s[i..i + |p|];
          assert OccursAt(tail, p, i - 1);
        } else {
          assert s[..|p|] == p;
        }
      }
    } else {
      if exists i :: OccursAt(s, p, i) {
        var i :| OccursAt(s, p, i);
        assert s[..|p|] == p;
      }
    }
  }

  /** `xs.join(sep)`. */
  function Join(xs: seq<string>, sep: string): (r: string)
  {
    if |xs| == 0 then ""
    else if |xs| == 1 then xs[0]
    else xs[0] + sep + Join(xs[1..], sep)
  }

  /** `s.split(' ')`: the pieces between single spaces; two adjacent spaces
      give an empty piece, and the empty string gives one empty piece. */
  function Split(s: string): (words: seq<string>)
    ensures |words| >= 1
    ensures forall w :: w in words ==> ' ' !in w
  {
    if |s| == 0 then [""]
    else if s[0] == ' ' then [""] + Split(s[1..])
    else
      var rest := Split(s[1..]);
      [[s[0]] + rest[0]] + rest[1..]
  }

  /** Splitting on spaces and joining with a space gives back the string. */
  lemma {:induction false} JoinSplit(s: string)
    ensures Join(Split(s), " ") == s
  {
    if |s| == 0 {
    } else {
      var rest := Split(s[1..]);
      JoinSplit(s[1..]);
      assert s == [s[0]] + s[1..];
      if s[0] == ' ' {
        var words := [""] + rest;
        assert words[1..] == rest;
        assert Join(words, " ") == "" + " " + Join(rest, " ");
      } else {
        var words := [[s[0]] + rest[0]] + rest[1..];
        assert words[1..] == rest[1..];
        if |rest| == 1 {
          assert Join(words, " ") == [s[0]] + Join(rest, " ");
        } else {
          assert Join(rest, " ") == rest[0] + " " + Join(rest[1..], " ");
          assert Join(words, " ") == ([s[0]] + rest[0]) + " " + Join(rest[1..], " ");
        }
      }
    }
  }

  /** The characters `trim` removes: the ECMAScript white-space and
      line-terminator characters. */
  predicate IsWhitespace(c: char)
  {
    || c == '\t' || c == '\n' || c == '\U{B}' || c == '\U{C}' || c == '\r'
    || c == ' ' || c == '\U{A0}' || c == '\U{1680}'
    || ('\U{2000}' <= c <= '\U{200A}')
    || c == '\U{2028}' || c == '\U{2029}' || c == '\U{202F}' || c == '\U{205F}'
    || c == '\U{3000}' || c == '\U{FEFF}'
  }

  /** Every character of `s` is white space. */
  predicate AllWhitespace(s: string)
  {
    |s| == 0 || (IsWhitespace(s[0]) && AllWhitespace(s[1..]))
  }

  /** The character-by-character reading agrees with the index-based one. */
  lemma {:induction false} AllWhitespaceAt(s: string)
    ensures AllWhitespace(s) <==> forall i :: 0 <= i < |s| ==> IsWhitespace(s[i])
  {
    if |s| > 0 {
      AllWhitespaceAt(s[1..]);
      assert forall i :: 1 <= i < |s| ==> s[1..][i - 1] == s[i];
    }
  }

  /** A concatenation is all white space exactly when both parts are. */
  lemma {:induction false} AllWhitespaceConcat(a: string, b: string)
    ensures AllWhitespace(a + b) <==> AllWhitespace(a) && AllWhitespace(b)
  {
    if |a| > 0 {
      assert (a + b)[1..] == a[1..] + b;
      AllWhitespaceConcat(a[1..], b);
    } else {
      assert a + b == b;
    }
  }

  /** `s` with its leading white space removed. */
  function TrimStart(s: string): (r: string)
    ensures |r| <= |s| && r == s[|s| - |r|..]
    ensures AllWhitespace(s[..|s| - |r|])
    ensures |r| == 0 <==> AllWhitespace(s)
    ensures |r| > 0 ==> !IsWhitespace(r[0])
  {
    if |s| > 0 && IsWhitespace(s[0]) then
      var t := s[1..];
      var r := TrimStart(t);
      var n := |s| - |r|;
      assert r == s[n..] by {
        assert t[|t| - |r|..] == s[n..];
      }
      assert AllWhitespace(s[..n]) by {
        assert s[..n][1..] == t[..|t| - |r|];
      }
      r
    else
      s
  }

  /** `s` with its trailing white space removed. */
  function TrimEnd(s: string): (r: string)
    ensures |r| <= |s| && r == s[..|r|]
    ensures AllWhitespace(s[|r|..])
    ensures |r| == 0 <==> AllWhitespace(s)
    ensures |r| > 0 ==> !IsWhitespace(r[|r| - 1])
  {
    if |s| == 0 then s
    else
      var init, last := s[..|s| - 1], s[|s| - 1];
      assert s == init + [last];
      AllWhitespaceConcat(init, [last]);
      assert AllWhitespace([last]) <==> IsWhitespace(last) by {
        assert [last][1..] == [];
      }
      if IsWhitespace(last) then
        var r := TrimEnd(init);
        assert s[|r|..] == init[|r|..] + [last];
        AllWhitespaceConcat(init[|r|..], [last]);
        r
      else
        s
  }

  /** Cutting `s` around a piece that starts its suffix `t`: the piece sits
      between the part of `s` before `t` and the rest of `t`. */
  lemma SuffixSlices(s: string, t: string, n: nat)
    requires |t| <= |s| && t == s[|s| - |t|..] && n <= |t|
    ensures s == s[..|s| - |t|] + t[..n] + t[n..]
  {
    assert t == t[..n] + t[n..];
  }

  /** `s.trim()`: `s` with a white-space prefix and a white-space suffix
      cut. It is empty exactly when `s` is all white space, and otherwise
      starts and ends with a character that is not. */
  function Trim(s: string): (r: string)
    ensures exists pre, post :: s == pre + r + post && AllWhitespace(pre) && AllWhitespace(post)
    ensures |r| == 0 <==> AllWhitespace(s)
    ensures |r| > 0 ==> !IsWhitespace(r[0]) && !IsWhitespace(r[|r| - 1])
  {
    var t := TrimStart(s);
    var r := TrimEnd(t);
    SuffixSlices(s, t, |r|);
    var pre, post := s[..|s| - |t|], t[|r|..];
    assert s == pre + r + post && AllWhitespace(pre) && AllWhitespace(post);
    assert |r| > 0 ==> r[0] == t[0];
    r
  }
}
