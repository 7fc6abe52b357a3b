/**
 * filterMessage of GPTHandler.py: the chain of rewrites a chat line goes
 * through before it is stored. Each regular-expression substitution is
 * modelled as the left-to-right scan Python's re.sub performs.
 */
module MessageFilter {
  import opened Wrappers
  import opened Py
  import TwitchGPT

  /** Length of the leading run of non-whitespace characters (what a greedy \S* takes). */
  function NonSpaceRun(s: string): (n: nat)
    ensures n <= |s|
    ensures forall i | 0 <= i < n :: !IsSpace(s[i])
    ensures n == |s| || IsSpace(s[n])
  {
    if s == [] || IsSpace(s[0]) then 0 else 1 + NonSpaceRun(s[1..])
  }

  /** The pattern lit + r"\S+" matches at the start of s. */
  predicate TokenAt(s: string, lit: string) {
    |lit| < |s| && s[..|lit|] == lit && !IsSpace(s[|lit|])
  }

  /** No position of s starts a match of lit + r"\S+". */
  predicate NoToken(s: string, lit: string) {
    forall i | 0 <= i < |s| :: !TokenAt(s[i..], lit)
  }

  /** No two consecutive spaces. */
  predicate NoDoubleSpace(s: string) {
    forall i | 0 <= i < |s| - 1 :: s[i] != ' ' || s[i + 1] != ' '
  }

  /** re.sub(lit + r"\S+", "", s): a match runs from lit to the end of its non-whitespace run. */
  function StripTokens(s: string, lit: string): string
    decreases |s|
  {
    if s == [] then []
    else if TokenAt(s, lit) then
      var n := |lit| + NonSpaceRun(s[|lit|..]);
      StripTokens(s[n..], lit)
    else [s[0]] + StripTokens(s[1..], lit)
  }

  /** re.sub(r" +", " ", s) */
  function CollapseSpaces(s: string): string
    decreases |s|
  {
    if |s| >= 2 && s[0] == ' ' && s[1] == ' ' then CollapseSpaces(s[1..])
    else if s == [] then []
    else [s[0]] + CollapseSpaces(s[1..])
  }

  /** What filterMessage promises of a line it lets through. */
  predicate WellFormed(t: string, allowMentions: bool) {
    && NoToken(t, "http")
    && (!allowMentions ==> NoToken(t, "@"))
    && NoDoubleSpace(t)
    && (t == [] || (!IsSpace(t[0]) && !IsSpace(t[|t| - 1])))
  }

  /**
   * filterMessage: None stands for the `False` returned for a blacklisted line;
   * otherwise links, then (unless mentions are allowed) mentions are removed,
   * runs of spaces collapsed and the ends stripped. The text may be empty.
   */
  function FilterMessage(message: string, blacklistWords: seq<string>, allowMentions: bool): (r: Option<string>)
    ensures r.None? <==> TwitchGPT.Blacklisted(blacklistWords, message)
    ensures r.Some? ==> WellFormed(r.value, allowMentions)
  {
    if TwitchGPT.Blacklisted(blacklistWords, message) then None
    else
      var noLinks := StripTokens(message, "http");
      var noMentions := if !allowMentions then StripTokens(noLinks, "@") else noLinks;
      var collapsed := CollapseSpaces(noMentions);
      var t := Strip(collapsed);
      FilterShape(message, allowMentions, noLinks, noMentions, collapsed, t);
      Some(t)
  }

  lemma FilterShape(message: string, allowMentions: bool, noLinks: string, noMentions: string, collapsed: string, t: string)
    requires noLinks == StripTokens(message, "http")
    requires noMentions == if !allowMentions then StripTokens(noLinks, "@") else noLinks
    requires collapsed == CollapseSpaces(noMentions)
    requires t == Strip(collapsed)
    ensures WellFormed(t, allowMentions)
  {
    PatternsNonSpace();
    StripTokensClean(message, "http");
    if !allowMentions {
      StripPreserves(noLinks, "http", "@");
      StripTokensClean(noLinks, "@");
      CollapsePreserves(noMentions, "@");
    }
    assert NoToken(noMentions, "http");
    CollapsePreserves(noMentions, "http");
    CollapseNoDouble(noMentions);
    StripShape(collapsed, allowMentions);
  }

  /** Neither pattern literal contains whitespace. */
  lemma PatternsNonSpace()
    ensures AllNonSpace("http") && AllNonSpace("@")
  {
    var h, m := "http", "@";
    assert h[0] == 'h' && h[1] == 't' && h[2] == 't' && h[3] == 'p' && m[0] == '@';
  }

  /** str.strip() keeps what the earlier rewrites established and removes the whitespace at both ends. */
  lemma StripShape(collapsed: string, allowMentions: bool)
    requires NoToken(collapsed, "http") && (!allowMentions ==> NoToken(collapsed, "@"))
    requires NoDoubleSpace(collapsed)
    ensures WellFormed(Strip(collapsed), allowMentions)
  {
    var t := Strip(collapsed);
    var a, b :| SpaceOutside(collapsed, a, b) && t == collapsed[a..b];
    SliceShape(collapsed, allowMentions, a, b);
  }

  /** A slice of a text free of links, (mentions) and double spaces is free of them too. */
  lemma SliceShape(collapsed: string, allowMentions: bool, a: nat, b: nat)
    requires a <= b <= |collapsed|
    requires NoToken(collapsed, "http") && (!allowMentions ==> NoToken(collapsed, "@"))
    requires NoDoubleSpace(collapsed)
    ensures NoToken(collapsed[a..b], "http") && (!allowMentions ==> NoToken(collapsed[a..b], "@"))
    ensures NoDoubleSpace(collapsed[a..b])
  {
    var t := collapsed[a..b];
    NoTokenSlice(collapsed, "http", a, b);
    if !allowMentions {
      NoTokenSlice(collapsed, "@", a, b);
    }
    forall i | 0 <= i < |t| - 1 ensures t[i] != ' ' || t[i + 1] != ' ' {
      assert t[i] == collapsed[a + i] && t[i + 1] == collapsed[a + i + 1];
    }
  }

  /** Filtering a line that came out of the filter gives it back unchanged (unless the blacklist now rejects it). */
  lemma FilterIdempotent(message: string, blacklistWords: seq<string>, allowMentions: bool, t: string)
    requires FilterMessage(message, blacklistWords, allowMentions) == Some(t)
    requires !TwitchGPT.Blacklisted(blacklistWords, t)
    ensures FilterMessage(t, blacklistWords, allowMentions) == Some(t)
  {
    FilterKeepsWellFormed(t, blacklistWords, allowMentions);
  }

  /**
   * The blacklist judges only the raw line: removing a link can join two words
   * into a listed phrase, and filtering the result again rejects it.
   */
  lemma FilterNotIdempotent()
    ensures FilterMessage("a httpz b", ["a b"], true) == Some("a b")
    ensures FilterMessage("a b", ["a b"], true) == None
  {
    var m := "a httpz b";
    RawLineAccepted(m);
    LinkRemoved(m);
    SpacesJoined("a  b");
    StripNoop("a b");
    PhraseListed("a b");
  }

  /** The link of the example line goes, and leaves two spaces behind. */
  lemma LinkRemoved(m: string)
    requires m == "a httpz b"
    ensures StripTokens(m, "http") == "a  b"
  {
    assert m[2..] == "httpz b";
    LinkSkipped(m[2..]);
    assert StripTokens(m[1..], "http") == " " + StripTokens(m[2..], "http") by {
      assert !TokenAt(m[1..], "http") && m[1..][1..] == m[2..];
    }
    assert StripTokens(m, "http") == "a" + StripTokens(m[1..], "http") by {
      assert !TokenAt(m, "http");
    }
    assert "a" + (" " + " b") == "a  b" by {
      var t := "a" + (" " + " b");
      assert |t| == 4 && t[0] == 'a' && t[1] == ' ' && t[2] == ' ' && t[3] == 'b';
    }
  }

  /** The link itself is removed up to the space that ends it. */
  lemma LinkSkipped(r: string)
    requires r == "httpz b"
    ensures StripTokens(r, "http") == " b"
  {
    assert StripTokens(r, "http") == StripTokens(r[5..], "http") by {
      assert TokenAt(r, "http");
      assert NonSpaceRun(r[4..]) == 1;
    }
    assert r[5..] == " b" && " b"[1..] == "b";
    assert StripTokens("b", "http") == "b";
  }

  /** The two spaces collapse into one, joining the words around the link. */
  lemma SpacesJoined(c: string)
    requires c == "a  b"
    ensures CollapseSpaces(c) == "a b"
  {
    assert c[1..] == "  b" && "  b"[1..] == " b" && " b"[1..] == "b" && "b"[1..] == "";
    assert CollapseSpaces("b") == "b";
    assert CollapseSpaces(" b") == " b";
    assert CollapseSpaces("  b") == " b";
  }

  /** The joined text holds the listed phrase at its start. */
  lemma PhraseListed(t: string)
    requires t == "a b"
    ensures TwitchGPT.Blacklisted(["a b"], t)
  {
    assert TwitchGPT.WordMatchesAt("a b", t, 0);
    assert ["a b"][0] == "a b";
  }

  /** The raw line holds no "a b" after a word boundary. */
  lemma RawLineAccepted(m: string)
    requires m == "a httpz b"
    ensures !TwitchGPT.Blacklisted(["a b"], m)
  {
    forall p | 0 <= p <= |m| ensures !TwitchGPT.WordMatchesAt("a b", m, p) {
      if p + 3 <= |m| {
        var w := m[p..p + 3];
        if p == 0 {
          assert Lower(w)[2] == 'h';
        } else if p == 6 {
          assert Lower(w)[0] == 'z';
        } else {
          assert w[1] == m[p + 1] != ' ';
          assert Lower(w)[1] != ' ';
        }
      }
    }
    var words := ["a b"];
    assert forall i | 0 <= i < |words| :: words[i] == "a b";
  }

  /** A text already in the shape the filter produces, and not blacklisted, passes through unchanged. */
  lemma FilterKeepsWellFormed(t: string, blacklistWords: seq<string>, allowMentions: bool)
    requires WellFormed(t, allowMentions)
    requires !TwitchGPT.Blacklisted(blacklistWords, t)
    ensures FilterMessage(t, blacklistWords, allowMentions) == Some(t)
  {
    StripTokensNoop(t, "http");
    if !allowMentions {
      StripTokensNoop(t, "@");
    }
    CollapseNoop(t);
    StripNoop(t);
  }

  // ---------------------------------------------------------------------------
  // Lemmas about the individual rewrites

  lemma TokenAtByPrefix(x: string, y: string, lit: string)
    requires |lit| < |x| && |lit| < |y| && x[..|lit| + 1] == y[..|lit| + 1]
    ensures TokenAt(x, lit) <==> TokenAt(y, lit)
  {
    assert x[..|lit|] == x[..|lit| + 1][..|lit|];
    assert y[..|lit|] == y[..|lit| + 1][..|lit|];
    assert x[|lit|] == x[..|lit| + 1][|lit|];
    assert y[|lit|] == y[..|lit| + 1][|lit|];
  }

  lemma NoTokenSlice(s: string, lit: string, a: nat, b: nat)
    requires a <= b <= |s| && NoToken(s, lit)
    ensures NoToken(s[a..b], lit)
  {
    forall p | 0 <= p < b - a ensures !TokenAt(s[a..b][p..], lit) {
      var x := s[a..b][p..];
      var y := s[a + p..];
      assert !TokenAt(y, lit);
      if |lit| < |x| {
        assert x[..|lit| + 1] == y[..|lit| + 1];
        TokenAtByPrefix(x, y, lit);
      }
    }
  }

  /** If the first k characters StripTokens produces are non-whitespace, they are the input's first k characters. */
  lemma {:induction false} StripPrefixKept(t: string, lit: string, k: nat)
    requires |lit| > 0 && !IsSpace(lit[0])
    requires k <= |StripTokens(t, lit)| && AllNonSpace(StripTokens(t, lit)[..k])
    ensures k <= |t| && t[..k] == StripTokens(t, lit)[..k]
  {
    var out := StripTokens(t, lit);
    if t == [] {
    } else if TokenAt(t, lit) {
      if k > 0 {
        StripAfterToken(t, lit);
      }
    } else if k > 0 {
      var tail := StripTokens(t[1..], lit);
      assert out == [t[0]] + tail;
      assert tail[..k - 1] == out[..k][1..];
      StripPrefixKept(t[1..], lit, k - 1);
      assert out[..k] == [t[0]] + tail[..k - 1];
      assert t[..k] == [t[0]] + t[1..][..k - 1];
    }
  }

  /** A match at the head of [s[0]] + tail is a match at the head of s when tail starts like s[1..]. */
  lemma TokenLifts(s: string, tail: string, lit: string)
    requires s != [] && TokenAt([s[0]] + tail, lit)
    requires |lit| <= |s| - 1 && |lit| <= |tail| && s[1..][..|lit|] == tail[..|lit|]
    ensures TokenAt(s, lit)
  {
    var out := [s[0]] + tail;
    assert s[..|lit| + 1] == [s[0]] + s[1..][..|lit|];
    assert out[..|lit| + 1] == [s[0]] + tail[..|lit|];
    TokenAtByPrefix(s, out, lit);
  }

  lemma NoTokenCons(c: char, tail: string, lit: string)
    requires NoToken(tail, lit) && !TokenAt([c] + tail, lit)
    ensures NoToken([c] + tail, lit)
  {
    var out := [c] + tail;
    forall i | 0 < i < |out| ensures !TokenAt(out[i..], lit) {
      assert out[i..] == tail[i - 1..];
    }
  }

  /** Once a match is removed, what follows starts with whitespace (or nothing). */
  lemma StripAfterToken(t: string, lit: string)
    requires |lit| > 0 && !IsSpace(lit[0]) && TokenAt(t, lit)
    ensures forall k | 0 < k <= |StripTokens(t, lit)| :: !AllNonSpace(StripTokens(t, lit)[..k])
  {
    var out := StripTokens(t, lit);
    var n := |lit| + NonSpaceRun(t[|lit|..]);
    var rest := t[n..];
    assert out == StripTokens(rest, lit);
    if n < |t| {
      assert IsSpace(rest[0]);
      assert !TokenAt(rest, lit);
      assert out[0] == rest[0];
      forall k | 0 < k <= |out| ensures !AllNonSpace(out[..k]) {
        assert out[..k][0] == out[0];
      }
    }
  }

  /** The first |lit| characters after a leading character, all non-whitespace when a match starts there. */
  lemma TailWindowNonSpace(c: char, tail: string, lit: string)
    requires AllNonSpace(lit) && TokenAt([c] + tail, lit)
    ensures |lit| <= |tail| && AllNonSpace(tail[..|lit|])
  {
    var out := [c] + tail;
    forall i | 0 <= i < |lit| ensures !IsSpace(tail[..|lit|][i]) {
      if i + 1 < |lit| {
        assert tail[i] == out[i + 1] == out[..|lit|][i + 1] == lit[i + 1];
      } else {
        assert tail[i] == out[|lit|];
      }
    }
  }

  /** After re.sub(lit + r"\S+", "", s) no match of the pattern is left. */
  lemma {:induction false} StripTokensClean(s: string, lit: string)
    requires |lit| > 0 && AllNonSpace(lit)
    ensures NoToken(StripTokens(s, lit), lit)
    decreases |s|
  {
    if s == [] {
    } else if TokenAt(s, lit) {
      var n := |lit| + NonSpaceRun(s[|lit|..]);
      StripTokensClean(s[n..], lit);
      assert StripTokens(s, lit) == StripTokens(s[n..], lit);
    } else {
      StripTokensClean(s[1..], lit);
      KeptCharClean(s, lit);
    }
  }

  /** A character kept in front of a clean rewrite of the rest does not start a match. */
  lemma KeptCharClean(s: string, lit: string)
    requires |lit| > 0 && AllNonSpace(lit)
    requires s != [] && !TokenAt(s, lit)
    requires NoToken(StripTokens(s[1..], lit), lit)
    ensures NoToken(StripTokens(s, lit), lit)
  {
    var tail := StripTokens(s[1..], lit);
    assert StripTokens(s, lit) == [s[0]] + tail;
    if TokenAt([s[0]] + tail, lit) {
      TailWindowNonSpace(s[0], tail, lit);
      StripPrefixKept(s[1..], lit, |lit|);
      TokenLifts(s, tail, lit);
      assert false;
    }
    NoTokenCons(s[0], tail, lit);
  }

  /** Removing matches of one pattern never creates a match of another (both literals non-whitespace). */
  lemma {:induction false} StripPreserves(s: string, lit: string, m: string)
    requires |lit| > 0 && AllNonSpace(lit) && |m| > 0 && !IsSpace(m[0])
    requires NoToken(s, lit)
    ensures NoToken(StripTokens(s, m), lit)
    decreases |s|
  {
    if s == [] {
    } else if TokenAt(s, m) {
      var n := |m| + NonSpaceRun(s[|m|..]);
      NoTokenSlice(s, lit, n, |s|);
      assert s[n..|s|] == s[n..];
      StripPreserves(s[n..], lit, m);
    } else {
      var tail := StripTokens(s[1..], m);
      var out := [s[0]] + tail;
      assert out == StripTokens(s, m);
      NoTokenSlice(s, lit, 1, |s|);
      assert s[1..|s|] == s[1..];
      StripPreserves(s[1..], lit, m);
      assert !TokenAt(s, lit) by { assert s[0..] == s; }
      if TokenAt(out, lit) {
        TailWindowNonSpace(s[0], tail, lit);
        StripPrefixKept(s[1..], m, |lit|);
        TokenLifts(s, tail, lit);
        assert false;
      }
      NoTokenCons(s[0], tail, lit);
    }
  }

  lemma {:induction false} CollapseHead(t: string)
    requires t != []
    ensures CollapseSpaces(t) != [] && CollapseSpaces(t)[0] == t[0]
    decreases |t|
  {
    if |t| >= 2 && t[0] == ' ' && t[1] == ' ' {
      CollapseHead(t[1..]);
    }
  }

  lemma {:induction false} CollapsePrefixKept(t: string, k: nat)
    requires k <= |CollapseSpaces(t)| && AllNonSpace(CollapseSpaces(t)[..k])
    ensures k <= |t| && t[..k] == CollapseSpaces(t)[..k]
    decreases |t|
  {
    var out := CollapseSpaces(t);
    if |t| >= 2 && t[0] == ' ' && t[1] == ' ' {
      if k > 0 {
        CollapseHead(t[1..]);
      }
    } else if t == [] {
    } else if k > 0 {
      var tail := CollapseSpaces(t[1..]);
      assert out == [t[0]] + tail;
      assert tail[..k - 1] == out[..k][1..];
      CollapsePrefixKept(t[1..], k - 1);
      assert out[..k] == [t[0]] + tail[..k - 1];
      assert t[..k] == [t[0]] + t[1..][..k - 1];
    }
  }

  /** After re.sub(r" +", " ", s) no two spaces are adjacent. */
  lemma {:induction false} CollapseNoDouble(s: string)
    ensures NoDoubleSpace(CollapseSpaces(s))
    decreases |s|
  {
    if |s| >= 2 && s[0] == ' ' && s[1] == ' ' {
      CollapseNoDouble(s[1..]);
    } else if s != [] {
      var tail := CollapseSpaces(s[1..]);
      var out := [s[0]] + tail;
      assert out == CollapseSpaces(s);
      CollapseNoDouble(s[1..]);
      if tail != [] {
        CollapseHead(s[1..]);
      }
      forall i | 0 <= i < |out| - 1 ensures out[i] != ' ' || out[i + 1] != ' ' {
        if i > 0 {
          assert out[i] == tail[i - 1] && out[i + 1] == tail[i];
        }
      }
    }
  }

  /** Collapsing spaces never creates a match of lit + r"\S+". */
  lemma {:induction false} CollapsePreserves(s: string, lit: string)
    requires |lit| > 0 && AllNonSpace(lit) && NoToken(s, lit)
    ensures NoToken(CollapseSpaces(s), lit)
    decreases |s|
  {
    if |s| >= 2 && s[0] == ' ' && s[1] == ' ' {
      NoTokenSlice(s, lit, 1, |s|);
      assert s[1..|s|] == s[1..];
      CollapsePreserves(s[1..], lit);
    } else if s != [] {
      var tail := CollapseSpaces(s[1..]);
      var out := [s[0]] + tail;
      assert out == CollapseSpaces(s);
      NoTokenSlice(s, lit, 1, |s|);
      assert s[1..|s|] == s[1..];
      CollapsePreserves(s[1..], lit);
      assert !TokenAt(s, lit) by { assert s[0..] == s; }
      if TokenAt(out, lit) {
        TailWindowNonSpace(s[0], tail, lit);
        CollapsePrefixKept(s[1..], |lit|);
        TokenLifts(s, tail, lit);
        assert false;
      }
      NoTokenCons(s[0], tail, lit);
    }
  }

  lemma {:induction false} StripTokensNoop(s: string, lit: string)
    requires NoToken(s, lit)
    ensures StripTokens(s, lit) == s
    decreases |s|
  {
    if s != [] {
      assert s[0..] == s;
      NoTokenSlice(s, lit, 1, |s|);
      assert s[1..|s|] == s[1..];
      StripTokensNoop(s[1..], lit);
    }
  }

  lemma {:induction false} CollapseNoop(s: string)
    requires NoDoubleSpace(s)
    ensures CollapseSpaces(s) == s
    decreases |s|
  {
    if s != [] {
      assert !(|s| >= 2 && s[0] == ' ' && s[1] == ' ');
      CollapseNoop(s[1..]);
    }
  }
}
