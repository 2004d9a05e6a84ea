/**
 * Canonical lookup keys for CIAP2 and CID10 codes (normalize_code).
 *
 * A key is the raw cell or user fragment with its leading and trailing
 * whitespace removed, upper-cased, and with every U+0020 space removed.
 * Other whitespace inside the string (a tab, say) survives.
 */
module Codes {
  import opened Wrappers

  /** The characters Python's str.strip() removes by default (str.isspace()). */
  const WHITESPACE: set<char> := {
    '\U{0009}', '\U{000A}', '\U{000B}', '\U{000C}', '\U{000D}',
    '\U{001C}', '\U{001D}', '\U{001E}', '\U{001F}', '\U{0020}',
    '\U{0085}', '\U{00A0}', '\U{1680}',
    '\U{2000}', '\U{2001}', '\U{2002}', '\U{2003}', '\U{2004}', '\U{2005}',
    '\U{2006}', '\U{2007}', '\U{2008}', '\U{2009}', '\U{200A}',
    '\U{2028}', '\U{2029}', '\U{202F}', '\U{205F}', '\U{3000}'
  }

  predicate IsWhitespace(c: char)
  {
    c in WHITESPACE
  }

  predicate IsLowerLetter(c: char)
  {
    'a' <= c <= 'z'
  }

  /** A string with no lower-case letter in it. */
  predicate IsUpperCase(s: string)
  {
    forall i | 0 <= i < |s| :: !IsLowerLetter(s[i])
  }

  /** A string with no U+0020 space in it. */
  predicate HasNoSpace(s: string)
  {
    forall i | 0 <= i < |s| :: s[i] != ' '
  }

  /** A string that does not begin or end with whitespace. */
  predicate IsStripped(s: string)
  {
    s == [] || (!IsWhitespace(s[0]) && !IsWhitespace(s[|s| - 1]))
  }

  function UpperChar(c: char): (u: char)
    ensures !IsLowerLetter(u)
    ensures IsWhitespace(u) <==> IsWhitespace(c)
    ensures !IsLowerLetter(c) ==> u == c
  {
    if IsLowerLetter(c) then (c as int - 32) as char else c
  }

  /** The length of the longest all-whitespace prefix. */
  function LeadingSpace(s: string): (n: nat)
    ensures n <= |s|
    ensures forall i | 0 <= i < n :: IsWhitespace(s[i])
    ensures n < |s| ==> !IsWhitespace(s[n])
  {
    if s != [] && IsWhitespace(s[0]) then 1 + LeadingSpace(s[1..]) else 0
  }

  /** The length of the longest all-whitespace suffix. */
  function TrailingSpace(s: string): (n: nat)
    ensures n <= |s|
    ensures forall i | |s| - n <= i < |s| :: IsWhitespace(s[i])
    ensures n < |s| ==> !IsWhitespace(s[|s| - n - 1])
  {
    if s != [] && IsWhitespace(s[|s| - 1]) then 1 + TrailingSpace(s[..|s| - 1]) else 0
  }

  /** The left cut of str.strip(): the leading whitespace removed. */
  function TrimStart(s: string): string
  {
    s[LeadingSpace(s)..]
  }

  /** The right cut of str.strip(): the trailing whitespace removed. */
  function TrimEnd(s: string): string
  {
    s[..|s| - TrailingSpace(s)]
  }

  /** str.strip(). */
  function Strip(s: string): (r: string)
    ensures IsStripped(r)
    ensures IsStripped(s) ==> r == s
  {
    TrimEnd(TrimStart(s))
  }

  /** str.upper(), restricted to the ASCII letters. */
  function Upper(s: string): (r: string)
    ensures |r| == |s|
    ensures forall i | 0 <= i < |s| :: r[i] == UpperChar(s[i])
  {
    if s == [] then [] else [UpperChar(s[0])] + Upper(s[1..])
  }

  /** str.replace(" ", ""): only U+0020 is removed. */
  function RemoveSpaces(s: string): (r: string)
    ensures HasNoSpace(r)
    ensures HasNoSpace(s) ==> r == s
    ensures IsUpperCase(s) ==> IsUpperCase(r)
    ensures s != [] && s[0] != ' ' ==> r != [] && r[0] == s[0]
    ensures s != [] && s[|s| - 1] != ' ' ==> r != [] && r[|r| - 1] == s[|s| - 1]
  {
    if s == [] then []
    else (if s[0] == ' ' then [] else [s[0]]) + RemoveSpaces(s[1..])
  }

  /**
   * normalize_code: None and "" give "", otherwise strip, upper-case and
   * remove the spaces, in that order.
   */
  function NormalizeCode(value: Option<string>): (r: string)
    ensures value == None || value == Some([]) ==> r == []
    ensures IsUpperCase(r)
    ensures HasNoSpace(r)
    ensures IsStripped(r)
  {
    var s := if value.Some? then value.value else "";
    var t := Strip(s);
    var u := Upper(t);
    assert IsUpperCase(u);
    assert u != [] ==> u[0] == UpperChar(t[0]) && u[|u| - 1] == UpperChar(t[|t| - 1]);
    assert IsStripped(u);
    RemoveSpaces(u)
  }

  /** normalize_code applied to every string of a column or list, in order. */
  function NormalizeAll(values: seq<string>): (keys: seq<string>)
    ensures |keys| == |values|
    ensures forall k | 0 <= k < |values| :: keys[k] == NormalizeCode(Some(values[k]))
  {
    seq(|values|, k requires 0 <= k < |values| => NormalizeCode(Some(values[k])))
  }

  /** A key is already in normal form: normalizing it again changes nothing. */
  lemma {:induction false} NormalizeIdempotent(value: Option<string>)
    ensures NormalizeCode(Some(NormalizeCode(value))) == NormalizeCode(value)
  {
    NormalFormIsFixedPoint(NormalizeCode(value));
  }

  /**
   * The keys are exactly the strings already in normal form: upper-case,
   * without a space and without whitespace at either end.
   */
  lemma NormalFormIsFixedPoint(s: string)
    ensures NormalizeCode(Some(s)) == s <==> IsUpperCase(s) && HasNoSpace(s) && IsStripped(s)
  {
    if IsUpperCase(s) && HasNoSpace(s) && IsStripped(s) {
      assert Strip(s) == s;
      assert Upper(s) == s;
    }
  }

  /**
   * Every character of a key is the upper-case form of a character of the
   * raw string: normalization introduces no new characters.
   */
  lemma {:induction false} NormalizeCharsFromInput(s: string, i: nat)
    requires i < |NormalizeCode(Some(s))|
    ensures exists j | 0 <= j < |s| :: NormalizeCode(Some(s))[i] == UpperChar(s[j])
  {
    var t0 := TrimStart(s);
    var t := TrimEnd(t0);
    var u := Upper(t);
    var k := RemoveSpacesFrom(u, i);
    assert t[k] == t0[k] == s[|s| - |t0| + k];
  }

  /** The index in the input of the i-th character RemoveSpaces keeps. */
  function RemoveSpacesFrom(s: string, i: nat): (j: nat)
    requires i < |RemoveSpaces(s)|
    ensures j < |s| && RemoveSpaces(s)[i] == s[j]
  {
    if s[0] == ' ' then 1 + RemoveSpacesFrom(s[1..], i)
    else if i == 0 then 0
    else 1 + RemoveSpacesFrom(s[1..], i - 1)
  }

  /** Case differences never change the key. */
  lemma {:induction false} NormalizeIgnoresCase(s: string)
    ensures NormalizeCode(Some(Upper(s))) == NormalizeCode(Some(s))
  {
    UpperCommutesWithStrip(s);
    var t := Strip(s);
    assert Upper(Upper(t)) == Upper(t);
  }

  lemma {:induction false} UpperCommutesWithStrip(s: string)
    ensures Strip(Upper(s)) == Upper(Strip(s))
  {
    UpperCommutesWithTrimStart(s);
    UpperCommutesWithTrimEnd(TrimStart(s));
  }

  lemma {:induction false} UpperCommutesWithTrimStart(s: string)
    ensures TrimStart(Upper(s)) == Upper(TrimStart(s))
    decreases |s|
  {
    if s != [] && IsWhitespace(s[0]) {
      assert Upper(s)[1..] == Upper(s[1..]);
      UpperCommutesWithTrimStart(s[1..]);
    }
  }

  lemma {:induction false} UpperCommutesWithTrimEnd(s: string)
    ensures TrimEnd(Upper(s)) == Upper(TrimEnd(s))
    decreases |s|
  {
    if s != [] && IsWhitespace(s[|s| - 1]) {
      assert Upper(s)[..|s| - 1] == Upper(s[..|s| - 1]);
      UpperCommutesWithTrimEnd(s[..|s| - 1]);
    }
  }

  /** replace(" ", "") works character by character: it distributes over concatenation. */
  lemma {:induction false} RemoveSpacesAppend(a: string, b: string)
    ensures RemoveSpaces(a + b) == RemoveSpaces(a) + RemoveSpaces(b)
    decreases |a|
  {
    if a == [] {
      assert a + b == b;
    } else {
      var c, rest := a[0], a[1..];
      assert a == [c] + rest && a + b == [c] + (rest + b);
      var h := if c == ' ' then [] else [c];
      calc {
        RemoveSpaces(a + b);
        { RemoveSpacesCons(c, rest + b); }
        h + RemoveSpaces(rest + b);
        { RemoveSpacesAppend(rest, b); }
        h + (RemoveSpaces(rest) + RemoveSpaces(b));
        (h + RemoveSpaces(rest)) + RemoveSpaces(b);
        { RemoveSpacesCons(c, rest); }
        RemoveSpaces(a) + RemoveSpaces(b);
      }
    }
  }

  /** Upper-casing neither creates nor removes a space. */
  lemma {:induction false} UpperCommutesWithRemoveSpaces(s: string)
    ensures RemoveSpaces(Upper(s)) == Upper(RemoveSpaces(s))
    decreases |s|
  {
    if s != [] {
      assert Upper(s)[1..] == Upper(s[1..]);
      UpperCommutesWithRemoveSpaces(s[1..]);
      var rest := RemoveSpaces(s[1..]);
      if s[0] != ' ' {
        assert Upper([s[0]] + rest) == [UpperChar(s[0])] + Upper(rest) by {
          assert ([s[0]] + rest)[1..] == rest;
        }
      }
    }
  }

  /** The left cut of strip() on a string with one more character in front. */
  lemma TrimStartCons(c: char, r: string)
    ensures IsWhitespace(c) ==> TrimStart([c] + r) == TrimStart(r)
    ensures !IsWhitespace(c) ==> TrimStart([c] + r) == [c] + r
  {
    assert ([c] + r)[0] == c && ([c] + r)[1..] == r;
  }

  /** The right cut of strip() on a string with one more character at the end. */
  lemma TrimEndSnoc(r: string, c: char)
    ensures IsWhitespace(c) ==> TrimEnd(r + [c]) == TrimEnd(r)
    ensures !IsWhitespace(c) ==> TrimEnd(r + [c]) == r + [c]
  {
    assert (r + [c])[|r|] == c && (r + [c])[..|r|] == r;
  }

  lemma RemoveSpacesCons(c: char, r: string)
    ensures RemoveSpaces([c] + r) == (if c == ' ' then [] else [c]) + RemoveSpaces(r)
  {
    assert ([c] + r)[0] == c && ([c] + r)[1..] == r;
  }

  /** Removing spaces before or after the left cut of strip() gives the same string. */
  lemma {:induction false} RemoveSpacesCommutesWithTrimStart(s: string)
    ensures RemoveSpaces(TrimStart(s)) == TrimStart(RemoveSpaces(s))
    decreases |s|
  {
    if s != [] {
      var c, r := s[0], s[1..];
      assert s == [c] + r;
      RemoveSpacesCons(c, r);
      TrimStartCons(c, r);
      var rr := RemoveSpaces(r);
      TrimStartCons(c, rr);
      if IsWhitespace(c) {
        RemoveSpacesCommutesWithTrimStart(r);
        assert RemoveSpaces(TrimStart(s)) == TrimStart(rr);
        if c == ' ' {
          assert RemoveSpaces(s) == rr;
        } else {
          assert RemoveSpaces(s) == [c] + rr;
        }
      } else {
        assert c != ' ';
        assert RemoveSpaces(s) == [c] + rr;
      }
    }
  }

  /** Removing spaces before or after the right cut of strip() gives the same string. */
  lemma {:induction false} RemoveSpacesCommutesWithTrimEnd(s: string)
    ensures RemoveSpaces(TrimEnd(s)) == TrimEnd(RemoveSpaces(s))
    decreases |s|
  {
    if s != [] {
      var r, c := s[..|s| - 1], s[|s| - 1];
      assert s == r + [c];
      var rr := RemoveSpaces(r);
      assert RemoveSpaces([c]) == if c == ' ' then [] else [c] by {
        RemoveSpacesCons(c, []);
        assert [c] + [] == [c];
      }
      RemoveSpacesAppend(r, [c]);
      TrimEndSnoc(r, c);
      TrimEndSnoc(rr, c);
      if IsWhitespace(c) {
        RemoveSpacesCommutesWithTrimEnd(r);
        assert RemoveSpaces(TrimEnd(s)) == TrimEnd(rr);
        if c == ' ' {
          assert RemoveSpaces(s) == rr;
        } else {
          assert RemoveSpaces(s) == rr + [c];
        }
      } else {
        assert c != ' ';
        assert RemoveSpaces(s) == rr + [c];
      }
    }
  }

  lemma {:induction false} RemoveSpacesCommutesWithStrip(s: string)
    ensures RemoveSpaces(Strip(s)) == Strip(RemoveSpaces(s))
  {
    RemoveSpacesCommutesWithTrimStart(s);
    RemoveSpacesCommutesWithTrimEnd(TrimStart(s));
  }

  /**
   * The key of a string depends only on its characters other than U+0020:
   * removing the spaces first does not change it.
   */
  lemma {:induction false} NormalizeIgnoresSpaces(s: string)
    ensures NormalizeCode(Some(RemoveSpaces(s))) == NormalizeCode(Some(s))
  {
    var r := RemoveSpaces(s);
    RemoveSpacesCommutesWithStrip(s);
    RemoveSpacesCommutesWithStrip(r);
    UpperCommutesWithRemoveSpaces(Strip(s));
    UpperCommutesWithRemoveSpaces(Strip(r));
    assert RemoveSpaces(r) == r;
  }

  /** A space typed inside a code never changes its key. */
  lemma {:induction false} NormalizeIgnoresInnerSpace(a: string, b: string)
    ensures NormalizeCode(Some(a + " " + b)) == NormalizeCode(Some(a + b))
  {
    var spaced, joined := a + " " + b, a + b;
    assert RemoveSpaces(spaced) == RemoveSpaces(joined) by {
      assert RemoveSpaces(" ") == [] by {
        RemoveSpacesCons(' ', []);
        assert [' '] + [] == " ";
      }
      RemoveSpacesAppend(a + " ", b);
      RemoveSpacesAppend(a, " ");
      RemoveSpacesAppend(a, b);
    }
    NormalizeIgnoresSpaces(spaced);
    NormalizeIgnoresSpaces(joined);
  }

  /** A code shaped like a CIAP2 code, an upper-case letter and two digits, is its own key. */
  lemma CiapShapedKey(x: char, y: char, z: char)
    requires 'A' <= x <= 'Z' && '0' <= y <= '9' && '0' <= z <= '9'
    ensures NormalizeCode(Some([x, y, z])) == [x, y, z]
  {
    assert !IsWhitespace(x) && !IsWhitespace(z);
    NormalFormIsFixedPoint([x, y, z]);
  }

  /** Upper-casing a CIAP2-shaped code typed with a lower-case letter. */
  lemma UpperFirst(x: char, y: char, z: char)
    requires 'a' <= x <= 'z' && '0' <= y <= '9' && '0' <= z <= '9'
    ensures Upper([x, y, z]) == [(x as int - 32) as char, y, z]
  {
  }

  /**
   * A CIAP2 code typed in lower case with a space after its letter, such as
   * "a 01", has the key of the code written properly, "A01".
   */
  lemma SpacedLowerCaseCode(x: char, y: char, z: char)
    requires 'a' <= x <= 'z' && '0' <= y <= '9' && '0' <= z <= '9'
    ensures NormalizeCode(Some([x, ' ', y, z])) == [(x as int - 32) as char, y, z]
    ensures NormalizeCode(Some([(x as int - 32) as char, y, z])) == [(x as int - 32) as char, y, z]
  {
    assert [x] + " " + [y, z] == [x, ' ', y, z] && [x] + [y, z] == [x, y, z];
    NormalizeIgnoresInnerSpace([x], [y, z]);
    NormalizeIgnoresCase([x, y, z]);
    UpperFirst(x, y, z);
    CiapShapedKey((x as int - 32) as char, y, z);
  }

  /** A space typed in front of a code never changes its key. */
  lemma NormalizeIgnoresLeadingSpace(s: string)
    ensures NormalizeCode(Some([' '] + s)) == NormalizeCode(Some(s))
  {
    RemoveSpacesCons(' ', s);
    assert [] + RemoveSpaces(s) == RemoveSpaces(s);
    NormalizeIgnoresSpaces([' '] + s);
    NormalizeIgnoresSpaces(s);
  }

  /** A lower-case code with a space after its letter, "a 01", has the same key as "A01": "A01". */
  lemma NormalizeExample()
    ensures NormalizeCode(Some("a 01")) == "A01"
    ensures NormalizeCode(Some("A01")) == "A01"
  {
    SpacedLowerCaseCode('a', '0', '1');
  }
}
