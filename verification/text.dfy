/** The string functions the application relies on, restricted to ASCII:
    JavaScript's `trim` and `toLowerCase`, and Python's `str.strip`. */
module Text {

  /** ASCII characters `String.prototype.trim` removes: tab, line feed,
      vertical tab, form feed, carriage return and space. */
  const JsWhitespace: set<char> := {'\t', '\n', '\U{B}', '\U{C}', '\r', ' '}

  /** ASCII characters Python's `str.strip()` and the regular-expression class
      `\s` treat as whitespace: the JavaScript set plus the four separators
      0x1C to 0x1F. */
  const PyWhitespace: set<char> := JsWhitespace + {'\U{1C}', '\U{1D}', '\U{1E}', '\U{1F}'}

  /** Every character of `s` is in `ws`. */
  predicate AllIn(s: string, ws: set<char>)
  {
    forall i :: 0 <= i < |s| ==> s[i] in ws
  }

  /** `s` without its leading characters from `ws`. */
  function TrimStart(s: string, ws: set<char>): string
  {
    if s != [] && s[0] in ws then TrimStart(s[1..], ws) else s
  }

  /** TrimStart cuts a run of `ws` characters off the front and stops at the
      first character outside `ws`. */
  lemma {:induction false} TrimStartSpec(s: string, ws: set<char>)
    ensures var r := TrimStart(s, ws);
      && |r| <= |s| && r == s[|s| - |r|..]
      && AllIn(s[..|s| - |r|], ws)
      && (r == [] || r[0] !in ws)
    decreases |s|
  {
    if s != [] && s[0] in ws {
      TrimStartSpec(s[1..], ws);
      var r := TrimStart(s[1..], ws);
      assert s[..|s| - |r|] == [s[0]] + s[1..][..|s[1..]| - |r|];
    }
  }

  /** `s` without its trailing characters from `ws`. */
  function TrimEnd(s: string, ws: set<char>): string
  {
    if s != [] && s[|s| - 1] in ws then TrimEnd(s[..|s| - 1], ws) else s
  }

  /** TrimEnd cuts a run of `ws` characters off the back and stops at the
      last character outside `ws`. */
  lemma {:induction false} TrimEndSpec(s: string, ws: set<char>)
    ensures var r := TrimEnd(s, ws);
      && |r| <= |s| && r == s[..|r|]
      && AllIn(s[|r|..], ws)
      && (r == [] || r[|r| - 1] !in ws)
    decreases |s|
  {
    if s != [] && s[|s| - 1] in ws {
      TrimEndSpec(s[..|s| - 1], ws);
      var r := TrimEnd(s[..|s| - 1], ws);
      assert s[|r|..] == s[..|s| - 1][|r|..] + [s[|s| - 1]];
    }
  }

  /** `s` with the characters of `ws` removed from both ends. */
  function Trim(s: string, ws: set<char>): (r: string)
  {
    TrimEnd(TrimStart(s, ws), ws)
  }

  /** The trimmed string is the slice of `s` left after cutting whitespace runs
      off both ends; it neither starts nor ends with whitespace. */
  lemma TrimIsSlice(s: string, ws: set<char>)
    ensures var r := Trim(s, ws);
      exists i, j :: 0 <= i <= j <= |s| && r == s[i..j] && AllIn(s[..i], ws) && AllIn(s[j..], ws)
    ensures var r := Trim(s, ws); r == [] || (r[0] !in ws && r[|r| - 1] !in ws)
  {
    var t := TrimStart(s, ws);
    var r := TrimEnd(t, ws);
    TrimStartSpec(s, ws);
    TrimEndSpec(t, ws);
    var i := |s| - |t|;
    var j := i + |r|;
    assert r == s[i..j];
    assert s[j..] == t[|r|..];
    assert AllIn(s[j..], ws);
  }

  /** A string that is all whitespace trims to the empty string, and only
      such a string does. */
  lemma {:induction false} TrimEmptyIff(s: string, ws: set<char>)
    ensures Trim(s, ws) == [] <==> AllIn(s, ws)
  {
    var t := TrimStart(s, ws);
    TrimStartSpec(s, ws);
    TrimEndSpec(t, ws);
    if Trim(s, ws) == [] {
      assert AllIn(t[0..], ws);
      assert t == [];
      assert s == s[..|s| - |t|];
    }
  }

  /** Whitespace appended to a string does not change its trimmed form. */
  lemma {:induction false} TrimEndAppendSpace(s: string, w: string, ws: set<char>)
    requires AllIn(w, ws)
    ensures TrimEnd(s + w, ws) == TrimEnd(s, ws)
    decreases |w|
  {
    if w != [] {
      var u := s + w;
      assert u[|u| - 1] == w[|w| - 1] && u[..|u| - 1] == s + w[..|w| - 1];
      TrimEndAppendSpace(s, w[..|w| - 1], ws);
    } else {
      assert s + w == s;
    }
  }

  /** Trimming is idempotent. */
  lemma TrimIdempotent(s: string, ws: set<char>)
    ensures Trim(Trim(s, ws), ws) == Trim(s, ws)
  {
    var r := Trim(s, ws);
    TrimIsSlice(s, ws);
  }

  /** Text appended after a character outside `ws` survives TrimStart
      untouched. */
  lemma {:induction false} TrimStartAppend(x: string, y: string, ws: set<char>)
    requires !AllIn(x, ws)
    ensures TrimStart(x + y, ws) == TrimStart(x, ws) + y
    decreases |x|
  {
    assert (x + y)[0] == x[0] && (x + y)[1..] == x[1..] + y;
    if x[0] in ws {
      var i :| 0 <= i < |x| && x[i] !in ws;
      assert x[1..][i - 1] == x[i];
      TrimStartAppend(x[1..], y, ws);
    }
  }

  /** Whitespace appended to a string does not change its two-sided trim. */
  lemma TrimAppendSpace(s: string, w: string, ws: set<char>)
    requires AllIn(w, ws)
    ensures Trim(s + w, ws) == Trim(s, ws)
  {
    if AllIn(s, ws) {
      assert AllIn(s + w, ws) by {
        forall i | 0 <= i < |s + w| ensures (s + w)[i] in ws {
          if i >= |s| {
            assert (s + w)[i] == w[i - |s|];
          }
        }
      }
      TrimEmptyIff(s + w, ws);
      TrimEmptyIff(s, ws);
    } else {
      TrimStartAppend(s, w, ws);
      TrimEndAppendSpace(TrimStart(s, ws), w, ws);
    }
  }

  /** Cutting the trailing whitespace first does not change the result of a
      two-sided trim. */
  lemma TrimAfterTrimEnd(s: string, ws: set<char>)
    ensures Trim(TrimEnd(s, ws), ws) == Trim(s, ws)
  {
    TrimEndSpec(s, ws);
    var e := TrimEnd(s, ws);
    assert s == e + s[|e|..];
    TrimAppendSpace(e, s[|e|..], ws);
  }

  /** JavaScript `s.trim()` on ASCII text. */
  function JsTrim(s: string): (r: string)
  {
    Trim(s, JsWhitespace)
  }

  /** Python `s.strip()` on ASCII text. */
  function PyStrip(s: string): (r: string)
  {
    Trim(s, PyWhitespace)
  }

  /** ASCII lower case of one character. */
  function LowerChar(c: char): (d: char)
    ensures 'A' <= c <= 'Z' ==> d as int == c as int + 32
    ensures !('A' <= c <= 'Z') ==> d == c
    ensures !('A' <= d <= 'Z')
  {
    if 'A' <= c <= 'Z' then (c as int + 32) as char else c
  }

  /** `s.toLowerCase()` on ASCII text: the same length, each upper-case letter
      replaced by its lower-case form and every other character kept. */
  function ToLower(s: string): (r: string)
    ensures |r| == |s|
    ensures forall i :: 0 <= i < |s| ==> r[i] == LowerChar(s[i])
  {
    if s == [] then [] else [LowerChar(s[0])] + ToLower(s[1..])
  }

  /** Lower-casing twice is lower-casing once. */
  lemma ToLowerIdempotent(s: string)
    ensures ToLower(ToLower(s)) == ToLower(s)
  {
  }

  /** Two strings that differ only in ASCII letter case lower-case alike. */
  predicate SameIgnoringCase(a: string, b: string)
  {
    |a| == |b| && forall i :: 0 <= i < |a| ==> LowerChar(a[i]) == LowerChar(b[i])
  }

  lemma ToLowerIgnoresCase(a: string, b: string)
    ensures SameIgnoringCase(a, b) <==> ToLower(a) == ToLower(b)
  {
    if ToLower(a) == ToLower(b) {
      assert |a| == |ToLower(a)|;
      forall i | 0 <= i < |a| ensures LowerChar(a[i]) == LowerChar(b[i]) {
        assert ToLower(a)[i] == ToLower(b)[i];
      }
    }
  }
}
