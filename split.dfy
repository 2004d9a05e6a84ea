/**
 * split_inputs: free text typed by the user becomes a list of keys.
 *
 * The text is cut on every run of ',', '\n', ';' and '\t' (the regular
 * expression [,\n;\t]+), each fragment is normalized, and the fragments
 * whose key is empty are dropped.
 */
module SplitInput {
  import opened Wrappers
  import opened Codes

  predicate IsSeparator(c: char)
  {
    c == ',' || c == '\n' || c == ';' || c == '\t'
  }

  predicate SeparatorFree(s: string)
  {
    forall i | 0 <= i < |s| :: !IsSeparator(s[i])
  }

  /**
   * re.split(r"[,\n;\t]+", text): the maximal separator-free pieces, with
   * an empty piece before a leading run and after a trailing run.
   */
  function Fragments(text: string): (parts: seq<string>)
    ensures |parts| >= 1
    ensures forall k | 0 <= k < |parts| :: SeparatorFree(parts[k])
    ensures SeparatorFree(text) ==> parts == [text]
    ensures text != [] && IsSeparator(text[0]) ==> parts[0] == []
    decreases |text|
  {
    if text == [] then [[]]
    else
      var rest := Fragments(text[1..]);
      if IsSeparator(text[0]) then
        if text[1..] != [] && IsSeparator(text[1]) then rest  // the run goes on
        else [[]] + rest
      else
        assert text == [text[0]] + text[1..];
        assert SeparatorFree(text) ==> SeparatorFree(text[1..]);
        [[text[0]] + rest[0]] + rest[1..]
  }

  /**
   * normalize_code as a total function on the pieces re.split returns. It is
   * named rather than written as a lambda at each use because FragmentKeys and
   * the lemmas about it must pass the same function value to KeepKeys, and two
   * separately written lambdas are not provably equal.
   */
  function NormalizePiece(p: string): string
  {
    NormalizeCode(Some(p))
  }

  /**
   * The comprehension [key(p) for p in parts if key(p)]: the key of every
   * piece, in order, without the empty ones.
   */
  function KeepKeys(key: string -> string, parts: seq<string>): (kept: seq<string>)
    ensures |kept| <= |parts|
    ensures forall k | 0 <= k < |kept| :: kept[k] != []
    ensures (forall j | 0 <= j < |parts| :: key(parts[j]) != []) ==> |kept| == |parts|
  {
    if parts == [] then []
    else (if key(parts[0]) != [] then [key(parts[0])] else []) + KeepKeys(key, parts[1..])
  }

  /** The position in parts of the piece whose key is the k-th one kept. */
  function KeepKeysSource(key: string -> string, parts: seq<string>, k: nat): (j: nat)
    requires k < |KeepKeys(key, parts)|
    ensures j < |parts| && key(parts[j]) == KeepKeys(key, parts)[k]
  {
    if key(parts[0]) == [] then 1 + KeepKeysSource(key, parts[1..], k)
    else if k == 0 then 0
    else 1 + KeepKeysSource(key, parts[1..], k - 1)
  }

  /** split_inputs: "" gives [], anything else the non-empty keys of its fragments. */
  function SplitInputs(text: string): (codes: seq<string>)
    ensures text == [] ==> codes == []
    ensures forall k | 0 <= k < |codes| :: codes[k] != [] && SeparatorFree(codes[k])
    ensures forall k | 0 <= k < |codes| :: NormalizeCode(Some(codes[k])) == codes[k]
  {
    if text == [] then []
    else
      var codes := FragmentKeys(text);
      assert forall k | 0 <= k < |codes| ::
          SeparatorFree(codes[k]) && NormalizeCode(Some(codes[k])) == codes[k] by {
        forall k | 0 <= k < |codes|
          ensures SeparatorFree(codes[k]) && NormalizeCode(Some(codes[k])) == codes[k]
        {
          FragmentKeyIsCode(text, k);
        }
      }
      codes
  }

  lemma {:induction false} FragmentKeyIsCode(text: string, k: nat)
    requires k < |FragmentKeys(text)|
    ensures SeparatorFree(FragmentKeys(text)[k])
    ensures NormalizeCode(Some(FragmentKeys(text)[k])) == FragmentKeys(text)[k]
  {
    var parts := Fragments(text);
    var j := KeepKeysSource(NormalizePiece, parts, k);
    NormalizeIdempotent(Some(parts[j]));
    NormalizePreservesSeparatorFree(parts[j]);
  }

  lemma {:induction false} NormalizePreservesSeparatorFree(s: string)
    ensures SeparatorFree(s) ==> SeparatorFree(NormalizeCode(Some(s)))
  {
    if SeparatorFree(s) {
      var r := NormalizeCode(Some(s));
      forall i | 0 <= i < |r| ensures !IsSeparator(r[i]) {
        NormalizeCharsFromInput(s, i);
      }
    }
  }

  /** The comprehension distributes over concatenation: order is kept. */
  lemma {:induction false} KeepKeysAppend(key: string -> string, a: seq<string>, b: seq<string>)
    ensures KeepKeys(key, a + b) == KeepKeys(key, a) + KeepKeys(key, b)
    decreases |a|
  {
    if a == [] {
      assert a + b == b;
    } else {
      var head := if key(a[0]) != [] then [key(a[0])] else [];
      calc {
        KeepKeys(key, a + b);
        { assert (a + b)[0] == a[0]; assert (a + b)[1..] == a[1..] + b; }
        head + KeepKeys(key, a[1..] + b);
        { KeepKeysAppend(key, a[1..], b); }
        head + (KeepKeys(key, a[1..]) + KeepKeys(key, b));
        (head + KeepKeys(key, a[1..])) + KeepKeys(key, b);
      }
    }
  }

  /** The keys split_inputs keeps from the fragments of a text. */
  function FragmentKeys(text: string): (keys: seq<string>)
    ensures |keys| <= |Fragments(text)|
    ensures forall k | 0 <= k < |keys| :: keys[k] != []
    ensures (forall j | 0 <= j < |Fragments(text)| :: NormalizePiece(Fragments(text)[j]) != []) ==>
      |keys| == |Fragments(text)|
  {
    KeepKeys(NormalizePiece, Fragments(text))
  }

  /** A fragment without separators in front of the rest of the text is the first piece. */
  lemma {:induction false} FragmentsPrefix(a: string, t: string)
    requires SeparatorFree(a)
    ensures Fragments(a + t) == [a + Fragments(t)[0]] + Fragments(t)[1..]
    decreases |a|
  {
    if a == [] {
      var ft := Fragments(t);
      assert a + t == t && a + ft[0] == ft[0];
      assert ft == [ft[0]] + ft[1..];
    } else {
      assert (a + t)[0] == a[0];
      assert (a + t)[1..] == a[1..] + t;
      assert SeparatorFree(a[1..]);
      FragmentsPrefix(a[1..], t);
      var ft := Fragments(t);
      var rest := Fragments(a[1..] + t);
      assert rest[0] == a[1..] + ft[0] && rest[1..] == ft[1..];
      assert !IsSeparator((a + t)[0]);
      assert Fragments(a + t) == [[a[0]] + rest[0]] + rest[1..];
      assert [a[0]] + rest[0] == a + ft[0] by {
        assert [a[0]] + (a[1..] + ft[0]) == ([a[0]] + a[1..]) + ft[0];
        assert [a[0]] + a[1..] == a;
      }
    }
  }

  /**
   * re.split on a separator that follows a separator-free prefix: the prefix
   * is the first piece, and the rest is split on its own. When b itself
   * starts with a separator the two runs merge, and the empty piece that
   * Fragments(b) starts with is not repeated.
   */
  lemma {:induction false} FragmentsAtSeparator(a: string, s: char, b: string)
    requires SeparatorFree(a) && IsSeparator(s)
    ensures b == [] || !IsSeparator(b[0]) ==> Fragments(a + [s] + b) == [a] + Fragments(b)
    ensures b != [] && IsSeparator(b[0]) ==> Fragments(a + [s] + b) == [a] + Fragments(b)[1..]
  {
    assert a + [s] + b == a + ([s] + b);
    FragmentsPrefix(a, [s] + b);
    assert ([s] + b)[0] == s && ([s] + b)[1..] == b;
    var fsb := Fragments([s] + b);
    if b != [] && IsSeparator(b[0]) {
      assert fsb == Fragments(b);
    } else {
      assert fsb == [[]] + Fragments(b);
    }
    assert a + fsb[0] == a;
  }

  lemma {:induction false} KeysAfterPrefix(key: string -> string, a: string, s: char, b: string)
    requires key([]) == [] && SeparatorFree(a) && IsSeparator(s)
    ensures KeepKeys(key, Fragments(a + [s] + b)) == KeepKeys(key, [a]) + KeepKeys(key, Fragments(b))
  {
    FragmentsAtSeparator(a, s, b);
    var fb := Fragments(b);
    if b != [] && IsSeparator(b[0]) {
      assert fb == [fb[0]] + fb[1..];
      KeepKeysAppend(key, [fb[0]], fb[1..]);
      KeepKeysAppend(key, [a], fb[1..]);
    } else {
      KeepKeysAppend(key, [a], fb);
    }
  }

  lemma {:induction false} KeysAtSeparator(key: string -> string, a: string, s: char, b: string)
    requires key([]) == [] && IsSeparator(s)
    ensures KeepKeys(key, Fragments(a + [s] + b)) == KeepKeys(key, Fragments(a)) + KeepKeys(key, Fragments(b))
    decreases |a|, 1
  {
    if SeparatorFree(a) {
      KeysAfterPrefix(key, a, s, b);
      assert Fragments(a) == [a];
    } else {
      KeysAtLaterSeparator(key, a, s, b);
    }
  }

  /** The case where a itself holds a separator: peel off its first piece. */
  lemma {:induction false} KeysAtLaterSeparator(key: string -> string, a: string, s: char, b: string)
    requires key([]) == [] && IsSeparator(s) && !SeparatorFree(a)
    ensures KeepKeys(key, Fragments(a + [s] + b)) == KeepKeys(key, Fragments(a)) + KeepKeys(key, Fragments(b))
    decreases |a|, 0
  {
    var i := FirstSeparator(a);
    var a0, s0, a1 := a[..i], a[i], a[i + 1..];
    assert a == a0 + [s0] + a1;
    var head := KeepKeys(key, [a0]);
    calc {
      KeepKeys(key, Fragments(a + [s] + b));
      { assert a + [s] + b == a0 + [s0] + (a1 + [s] + b); }
      KeepKeys(key, Fragments(a0 + [s0] + (a1 + [s] + b)));
      { KeysAfterPrefix(key, a0, s0, a1 + [s] + b); }
      head + KeepKeys(key, Fragments(a1 + [s] + b));
      { KeysAtSeparator(key, a1, s, b); }
      head + (KeepKeys(key, Fragments(a1)) + KeepKeys(key, Fragments(b)));
      (head + KeepKeys(key, Fragments(a1))) + KeepKeys(key, Fragments(b));
      { KeysAfterPrefix(key, a0, s0, a1); }
      KeepKeys(key, Fragments(a)) + KeepKeys(key, Fragments(b));
    }
  }

  /**
   * Left-to-right order: the keys of a text joined at a separator are the
   * keys of the left part followed by the keys of the right part.
   */
  lemma {:induction false} SplitInputsAtSeparator(a: string, s: char, b: string)
    requires IsSeparator(s)
    ensures SplitInputs(a + [s] + b) == SplitInputs(a) + SplitInputs(b)
  {
    assert NormalizePiece([]) == [];
    KeysAtSeparator(NormalizePiece, a, s, b);
    EmptyTextHasNoKeys();
  }

  lemma EmptyTextHasNoKeys()
    ensures FragmentKeys([]) == []
  {
    assert NormalizePiece([]) == [];
  }

  function FirstSeparator(s: string): (i: nat)
    requires !SeparatorFree(s)
    ensures i < |s| && IsSeparator(s[i]) && SeparatorFree(s[..i])
  {
    if IsSeparator(s[0]) then 0
    else
      assert !SeparatorFree(s[1..]) by {
        var j :| 0 <= j < |s| && IsSeparator(s[j]);
        assert j > 0 && s[1..][j - 1] == s[j];
      }
      var j := FirstSeparator(s[1..]);
      assert s[..j + 1] == [s[0]] + s[1..][..j];
      j + 1
  }

  /** Text without any separator gives its own key, or nothing when that is empty. */
  lemma {:induction false} SplitInputsSingleFragment(text: string)
    requires SeparatorFree(text)
    ensures var key := NormalizeCode(Some(text));
            SplitInputs(text) == if key == [] then [] else [key]
  {
    if text != [] {
      assert Fragments(text) == [text];
      assert [text][1..] == [];
    }
  }
}
