/**
 * The few Python 2 string operations the generator relies on:
 * str.strip(), str.split(), str.lower(), os.path.basename and
 * `name.split(".")[0]`, on strings of characters.
 */
module Text {

  /** Python 2's whitespace for str.strip() and str.split(): space, \t, \n, \r, \v, \f. */
  predicate IsSpace(c: char)
  {
    c == ' ' || c == '\t' || c == '\n' || c == '\r' || c == '\U{000B}' || c == '\U{000C}'
  }

  predicate NoSpace(s: string)
  {
    forall i :: 0 <= i < |s| ==> !IsSpace(s[i])
  }

  predicate AllSpace(s: string)
  {
    forall i :: 0 <= i < |s| ==> IsSpace(s[i])
  }

  /** The number of whitespace characters s starts with. */
  function Leading(s: string): (n: nat)
    ensures n <= |s|
    ensures forall k :: 0 <= k < n ==> IsSpace(s[k])
    ensures n < |s| ==> !IsSpace(s[n])
  {
    if s != [] && IsSpace(s[0]) then
      var n := Leading(s[1..]);
      assert forall k :: 1 <= k < n + 1 ==> s[k] == s[1..][k - 1];
      n + 1
    else
      0
  }

  /** The number of whitespace characters s ends with. */
  function Trailing(s: string): (n: nat)
    ensures n <= |s|
    ensures forall k :: |s| - n <= k < |s| ==> IsSpace(s[k])
    ensures n < |s| ==> !IsSpace(s[|s| - n - 1])
  {
    if s != [] && IsSpace(s[|s| - 1]) then
      var n := Trailing(s[..|s| - 1]);
      assert forall k :: |s| - 1 - n <= k < |s| - 1 ==> s[k] == s[..|s| - 1][k];
      n + 1
    else
      0
  }

  /**
   * str.strip(): empty exactly when s is all whitespace; otherwise the part of
   * s between its leading and its trailing whitespace, which neither starts
   * nor ends with whitespace.
   */
  function Strip(s: string): (r: string)
    ensures r == [] <==> AllSpace(s)
    ensures r != [] ==> Leading(s) + |r| + Trailing(s) == |s| && r == s[Leading(s)..Leading(s) + |r|]
    ensures r != [] ==> !IsSpace(r[0]) && !IsSpace(r[|r| - 1])
  {
    var i := Leading(s);
    if i == |s| then
      []
    else
      var j := |s| - Trailing(s);
      assert i < j;
      s[i..j]
  }

  /** The length of the longest whitespace-free prefix of s. */
  function WordLength(s: string): (n: nat)
    ensures n <= |s|
    ensures forall k :: 0 <= k < n ==> !IsSpace(s[k])
    ensures n < |s| ==> IsSpace(s[n])
  {
    if s == [] || IsSpace(s[0]) then
      0
    else
      var n := WordLength(s[1..]);
      assert forall k :: 1 <= k < n + 1 ==> s[k] == s[1..][k - 1];
      n + 1
  }

  /** str.split() with no argument: the maximal runs of non-whitespace characters, in order. */
  function Split(s: string): (r: seq<string>)
    ensures forall t :: t in r ==> t != [] && NoSpace(t)
    ensures r == [] <==> AllSpace(s)
    decreases |s|
  {
    if s == [] then
      []
    else if IsSpace(s[0]) then
      var r := Split(s[1..]);
      assert AllSpace(s[1..]) ==> AllSpace(s) by {
        assert forall k :: 1 <= k < |s| ==> s[k] == s[1..][k - 1];
      }
      r
    else
      var n := WordLength(s);
      assert NoSpace(s[..n]) by {
        assert forall k :: 0 <= k < n ==> s[..n][k] == s[k];
      }
      [s[..n]] + Split(s[n..])
  }

  /** gaps[0] + ws[0] + gaps[1] + ... + ws[n-1] + gaps[n]: the words with the text between them. */
  function Interleave(gaps: seq<string>, ws: seq<string>): string
    requires |gaps| == |ws| + 1
  {
    if ws == [] then gaps[0] else gaps[0] + (ws[0] + Interleave(gaps[1..], ws[1..]))
  }

  /**
   * s is the words ws separated by whitespace gaps: every gap is whitespace
   * only, and every gap between two words is non-empty.
   */
  predicate SplitsAs(s: string, gaps: seq<string>, ws: seq<string>)
  {
    && |gaps| == |ws| + 1
    && (forall i :: 0 <= i < |gaps| ==> AllSpace(gaps[i]))
    && (forall i :: 0 < i < |ws| ==> gaps[i] != [])
    && s == Interleave(gaps, ws)
  }

  /**
   * The words of str.split() are the maximal runs of non-whitespace: s is
   * those words with whitespace around them and at least one whitespace
   * character between each two.
   */
  lemma SplitBoundaries(s: string)
    ensures exists gaps :: SplitsAs(s, gaps, Split(s))
  {
    var gaps := SplitGaps(s);
  }

  /** The gaps of SplitBoundaries, built along Split's recursion. */
  lemma {:induction false} SplitGaps(s: string) returns (gaps: seq<string>)
    ensures SplitsAs(s, gaps, Split(s))
    decreases |s|
  {
    if s == [] {
      gaps := [[]];
    } else if IsSpace(s[0]) {
      var gaps' := SplitGaps(s[1..]);
      SpaceStep(s[0], s[1..], gaps', Split(s[1..]));
      assert s == [s[0]] + s[1..];
      gaps := [[s[0]] + gaps'[0]] + gaps'[1..];
    } else {
      var n := WordLength(s);
      var gaps' := SplitGaps(s[n..]);
      assert NoSpace(s[..n]) by {
        assert forall k :: 0 <= k < n ==> s[..n][k] == s[k];
      }
      WordStep(s[..n], s[n..], gaps', Split(s[n..]));
      assert s == s[..n] + s[n..];
      gaps := [[]] + gaps';
    }
  }

  /** A leading whitespace character joins the first gap. */
  lemma SpaceStep(c: char, rest: string, gaps: seq<string>, ws: seq<string>)
    requires IsSpace(c) && SplitsAs(rest, gaps, ws)
    ensures SplitsAs([c] + rest, [[c] + gaps[0]] + gaps[1..], ws)
  {
    var gaps' := [[c] + gaps[0]] + gaps[1..];
    assert gaps'[1..] == gaps[1..];
    assert forall i :: 0 < i < |gaps'| ==> gaps'[i] == gaps[i];
    assert AllSpace(gaps'[0]) by {
      assert forall k :: 1 <= k < |gaps'[0]| ==> gaps'[0][k] == gaps[0][k - 1];
    }
    if ws == [] {
      assert Interleave(gaps', ws) == [c] + gaps[0];
    } else {
      ghost var tail := ws[0] + Interleave(gaps[1..], ws[1..]);
      assert Interleave(gaps', ws) == ([c] + gaps[0]) + tail;
      assert rest == gaps[0] + tail;
    }
  }

  /** A leading word, followed by whitespace or nothing, opens with an empty gap. */
  lemma WordStep(w: string, rest: string, gaps: seq<string>, ws: seq<string>)
    requires w != [] && NoSpace(w) && (rest != [] ==> IsSpace(rest[0]))
    requires forall t :: t in ws ==> t != [] && NoSpace(t)
    requires SplitsAs(rest, gaps, ws)
    ensures SplitsAs(w + rest, [[]] + gaps, [w] + ws)
  {
    var gaps' := [[]] + gaps;
    var ws' := [w] + ws;
    assert gaps'[1..] == gaps && ws'[1..] == ws;
    assert Interleave(gaps', ws') == [] + (w + rest);
    if ws != [] {
      // the first word starts with non-whitespace and rest with whitespace, so a gap lies between
      var tail := ws[0] + Interleave(gaps[1..], ws[1..]);
      assert rest == gaps[0] + tail;
      assert ws[0] in ws;
      assert tail[0] == ws[0][0] && !IsSpace(tail[0]);
      assert |gaps[0]| + |tail| == |rest| && IsSpace(rest[0]);
    }
  }

  /** The characters of s that are not whitespace, in order. */
  function Unspaced(s: string): string
  {
    if s == [] then [] else (if IsSpace(s[0]) then [] else [s[0]]) + Unspaced(s[1..])
  }

  function Concat(ws: seq<string>): string
  {
    if ws == [] then [] else ws[0] + Concat(ws[1..])
  }

  lemma {:induction false} UnspacedAppend(a: string, b: string)
    ensures Unspaced(a + b) == Unspaced(a) + Unspaced(b)
    decreases |a|
  {
    if a != [] {
      assert (a + b)[0] == a[0];
      assert (a + b)[1..] == a[1..] + b;
      UnspacedAppend(a[1..], b);
    } else {
      assert a + b == b;
    }
  }

  lemma {:induction false} UnspacedOfWord(s: string)
    requires NoSpace(s)
    ensures Unspaced(s) == s
    decreases |s|
  {
    if s != [] {
      UnspacedOfWord(s[1..]);
    }
  }

  /** Splitting loses exactly the whitespace: the words, put back together, are s without its whitespace. */
  lemma {:induction false} SplitKeepsText(s: string)
    ensures Concat(Split(s)) == Unspaced(s)
    decreases |s|
  {
    if s == [] {
    } else if IsSpace(s[0]) {
      SplitKeepsText(s[1..]);
    } else {
      var n := WordLength(s);
      var w, rest := s[..n], s[n..];
      assert NoSpace(w) by {
        assert forall k :: 0 <= k < n ==> w[k] == s[k];
      }
      assert ([w] + Split(rest))[1..] == Split(rest);
      assert Concat(Split(s)) == w + Concat(Split(rest));
      assert s == w + rest;
      UnspacedAppend(w, rest);
      UnspacedOfWord(w);
      SplitKeepsText(rest);
    }
  }

  function LowerChar(c: char): char
  {
    if 'A' <= c <= 'Z' then (c as int + 32) as char else c
  }

  predicate IsUpper(c: char)
  {
    'A' <= c <= 'Z'
  }

  /** str.lower() on ASCII: the same length. */
  function Lower(s: string): (r: string)
    ensures |r| == |s|
  {
    if s == [] then [] else [LowerChar(s[0])] + Lower(s[1..])
  }

  /** Lower-casing leaves nothing upper-case and changes only upper-case letters, each to its lower-case form. */
  lemma {:induction false} LowerShape(s: string)
    ensures var r := Lower(s);
      && (forall i :: 0 <= i < |s| ==> !IsUpper(r[i]))
      && (forall i :: 0 <= i < |s| && !IsUpper(s[i]) ==> r[i] == s[i])
      && (forall i :: 0 <= i < |s| && IsUpper(s[i]) ==> r[i] as int == s[i] as int + 32)
    decreases |s|
  {
    if s != [] {
      LowerShape(s[1..]);
      var r := Lower(s);
      assert forall i :: 1 <= i < |s| ==> r[i] == Lower(s[1..])[i - 1] && s[i] == s[1..][i - 1];
    }
  }

  /** os.path.basename on '/'-separated paths: the text after the last '/'. */
  function Basename(p: string): string
  {
    if p == [] || p[|p| - 1] == '/' then [] else Basename(p[..|p| - 1]) + [p[|p| - 1]]
  }

  /** The base name is a suffix of the path without '/', preceded by '/' unless it is the whole path. */
  lemma {:induction false} BasenameShape(p: string)
    ensures var r := Basename(p);
      && |r| <= |p| && r == p[|p| - |r|..] && '/' !in r
      && (|r| < |p| ==> p[|p| - |r| - 1] == '/')
    decreases |p|
  {
    if p != [] && p[|p| - 1] != '/' {
      var q := p[..|p| - 1];
      BasenameShape(q);
      var r0 := Basename(q);
      var r := Basename(p);
      assert r == r0 + [p[|p| - 1]];
      assert p[|p| - |r|..] == q[|q| - |r0|..] + [p[|p| - 1]];
      assert '/' !in r by {
        assert forall k :: 0 <= k < |r0| ==> r[k] == r0[k];
      }
      if |r0| < |q| {
        assert p[|p| - |r0| - 2] == q[|q| - |r0| - 1];
      }
    }
  }

  /** The base name of `dir/name` is `name` when name holds no '/'. */
  lemma {:induction false} BasenameAfterSlash(dir: string, name: string)
    requires '/' !in name
    ensures Basename(dir + "/" + name) == name
    decreases |name|
  {
    var p := dir + "/" + name;
    if name == [] {
      assert p[|p| - 1] == '/';
    } else {
      var n := |name| - 1;
      assert name[n] in name;
      assert p[..|p| - 1] == dir + "/" + name[..n];
      assert '/' !in name[..n] by {
        forall c | c in name[..n] ensures c != '/' {
          var k :| 0 <= k < n && name[..n][k] == c;
          assert name[k] == c;
        }
      }
      BasenameAfterSlash(dir, name[..n]);
      assert name == name[..n] + [name[n]];
    }
  }

  /** `name.split(".")[0]`: the text before the first '.'. */
  function Stem(name: string): string
  {
    if name == [] || name[0] == '.' then [] else [name[0]] + Stem(name[1..])
  }

  /** The stem is the prefix of the name before its first '.'. */
  lemma {:induction false} StemShape(name: string)
    ensures var r := Stem(name);
      && |r| <= |name| && r == name[..|r|] && '.' !in r
      && (|r| < |name| ==> name[|r|] == '.')
    decreases |name|
  {
    if name != [] && name[0] != '.' {
      StemShape(name[1..]);
      var r1 := Stem(name[1..]);
      assert name[..|r1| + 1] == [name[0]] + name[1..][..|r1|];
    }
  }

  /** Each word followed by one space, as the generator's `s += t + ' '` loops build it. */
  function Spaced(ws: seq<string>): string
  {
    if ws == [] then "" else Spaced(ws[..|ws| - 1]) + (ws[|ws| - 1] + " ")
  }
}
