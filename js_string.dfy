/**
 * The part of ECMAScript's String.prototype.trim the views rely on: an input
 * is rejected when trimming leaves nothing, that is, when it is blank.
 */
module JsString {

  /** The code points trim removes: WhiteSpace (TAB, VT, FF, ZWNBSP and the Zs category) and LineTerminator. */
  predicate IsTrimmable(c: char) {
    || c == '\t' || c == '\U{000B}' || c == '\U{000C}' || c == '\U{FEFF}'
    || c == ' ' || c == '\U{00A0}' || c == '\U{1680}' || ('\U{2000}' <= c <= '\U{200A}')
    || c == '\U{202F}' || c == '\U{205F}' || c == '\U{3000}'
    || c == '\n' || c == '\r' || c == '\U{2028}' || c == '\U{2029}'
  }

  /** Every character is one trim removes. */
  predicate IsBlank(s: string) {
    forall i | 0 <= i < |s| :: IsTrimmable(s[i])
  }

  lemma BlankCons(c: char, t: string)
    ensures IsBlank([c] + t) <==> IsTrimmable(c) && IsBlank(t)
  {
    var s := [c] + t;
    if IsTrimmable(c) && IsBlank(t) {
      forall i | 0 <= i < |s| ensures IsTrimmable(s[i]) {
        if i > 0 { assert s[i] == t[i - 1]; }
      }
    }
    if IsBlank(s) {
      assert IsTrimmable(s[0]);
      forall i | 0 <= i < |t| ensures IsTrimmable(t[i]) {
        assert t[i] == s[i + 1];
      }
    }
  }

  lemma BlankSnoc(t: string, c: char)
    ensures IsBlank(t + [c]) <==> IsBlank(t) && IsTrimmable(c)
  {
    var s := t + [c];
    if IsBlank(t) && IsTrimmable(c) {
      forall i | 0 <= i < |s| ensures IsTrimmable(s[i]) {
        if i < |t| { assert s[i] == t[i]; }
      }
    }
    if IsBlank(s) {
      assert IsTrimmable(s[|t|]);
      forall i | 0 <= i < |t| ensures IsTrimmable(t[i]) {
        assert t[i] == s[i];
      }
    }
  }

  /** Drops leading trimmable characters: the result is a suffix of `s` (what it drops is `TrimStartFacts`). */
  function TrimStart(s: string): (r: string)
    ensures |r| <= |s| && r == s[|s| - |r|..]
  {
    if s != [] && IsTrimmable(s[0]) then TrimStart(s[1..]) else s
  }

  /** Drops trailing trimmable characters: the result is a prefix of `s` (what it drops is `TrimEndFacts`). */
  function TrimEnd(s: string): (r: string)
    ensures |r| <= |s| && r == s[..|r|]
  {
    if s != [] && IsTrimmable(s[|s| - 1]) then TrimEnd(s[..|s| - 1]) else s
  }

  /** `TrimStart` drops only trimmable characters. */
  lemma {:induction false} TrimStartDropsBlank(s: string)
    ensures IsBlank(s[..|s| - |TrimStart(s)|])
  {
    if s != [] && IsTrimmable(s[0]) {
      var t := s[1..];
      TrimStartDropsBlank(t);
      var k := |t| - |TrimStart(t)|;
      assert s[..k + 1] == [s[0]] + t[..k];
      BlankCons(s[0], t[..k]);
    }
  }

  /** `TrimStart` stops at the first significant character. */
  lemma {:induction false} TrimStartStops(s: string)
    ensures TrimStart(s) != [] ==> !IsTrimmable(TrimStart(s)[0])
  {
    if s != [] && IsTrimmable(s[0]) {
      TrimStartStops(s[1..]);
    }
  }

  /**
   * `TrimStart` drops only trimmable characters, stops at the first
   * significant one, and so leaves nothing exactly when the input is blank.
   */
  lemma TrimStartFacts(s: string)
    ensures IsBlank(s[..|s| - |TrimStart(s)|])
    ensures TrimStart(s) == [] <==> IsBlank(s)
    ensures TrimStart(s) != [] ==> !IsTrimmable(TrimStart(s)[0])
  {
    TrimStartDropsBlank(s);
    TrimStartStops(s);
    var r := TrimStart(s);
    if r == [] {
      assert s[..|s|] == s;
    } else {
      assert s[|s| - |r|] == r[0];
    }
  }

  /** `TrimEnd` drops only trimmable characters. */
  lemma {:induction false} TrimEndDropsBlank(s: string)
    ensures IsBlank(s[|TrimEnd(s)|..])
  {
    if s != [] && IsTrimmable(s[|s| - 1]) {
      var t := s[..|s| - 1];
      TrimEndDropsBlank(t);
      var k := |TrimEnd(t)|;
      assert s[k..] == t[k..] + [s[|s| - 1]];
      BlankSnoc(t[k..], s[|s| - 1]);
    }
  }

  /** `TrimEnd` stops at the last significant character. */
  lemma {:induction false} TrimEndStops(s: string)
    ensures TrimEnd(s) != [] ==> !IsTrimmable(TrimEnd(s)[|TrimEnd(s)| - 1])
  {
    if s != [] && IsTrimmable(s[|s| - 1]) {
      TrimEndStops(s[..|s| - 1]);
    }
  }

  /**
   * `TrimEnd` drops only trimmable characters, stops at the last
   * significant one, and so leaves nothing exactly when the input is blank.
   */
  lemma TrimEndFacts(s: string)
    ensures IsBlank(s[|TrimEnd(s)|..])
    ensures TrimEnd(s) == [] <==> IsBlank(s)
    ensures TrimEnd(s) != [] ==> !IsTrimmable(TrimEnd(s)[|TrimEnd(s)| - 1])
  {
    TrimEndDropsBlank(s);
    TrimEndStops(s);
    var r := TrimEnd(s);
    if r == [] {
      assert s[0..] == s;
    } else {
      assert s[|r| - 1] == r[|r| - 1];
    }
  }

  /** String.prototype.trim: empty exactly for blank input, otherwise starts and ends with a significant character. */
  function Trim(s: string): (r: string)
    ensures r == [] <==> IsBlank(s)
    ensures r != [] ==> !IsTrimmable(r[0]) && !IsTrimmable(r[|r| - 1])
  {
    var t := TrimStart(s);
    TrimStartFacts(s);
    TrimEndFacts(t);
    assert TrimEnd(t) != [] ==> TrimEnd(t)[0] == t[0];
    TrimEnd(t)
  }

  /** Trim returns the input with a blank prefix and a blank suffix cut off, and nothing else. */
  lemma TrimRemovesBlankMargins(s: string)
    ensures exists a, b | 0 <= a <= b <= |s| :: Trim(s) == s[a..b] && IsBlank(s[..a]) && IsBlank(s[b..])
  {
    var t := TrimStart(s);
    TrimStartDropsBlank(s);
    TrimEndDropsBlank(t);
    var a := |s| - |t|;
    var b := a + |TrimEnd(t)|;
    assert s[a..b] == t[..|TrimEnd(t)|];
    assert s[b..] == t[|TrimEnd(t)|..];
  }
}
