/** Text operations on byte strings. Letters, digits, white space and case are those of ASCII;
    every other byte is neither a letter nor white space and has no case. */
module Text {
  import opened Wrappers
  import opened Bytes
  import opened Seqs

  const SPACE: Byte := 0x20
  const DOT: Byte := 0x2E
  const DASH: Byte := 0x2D
  const SLASH: Byte := 0x2F
  const BACKSLASH: Byte := 0x5C

  predicate IsUpper(b: Byte) { 0x41 <= b <= 0x5A }
  predicate IsLower(b: Byte) { 0x61 <= b <= 0x7A }
  predicate IsDigit(b: Byte) { 0x30 <= b <= 0x39 }
  predicate IsAlphanumeric(b: Byte) { IsUpper(b) || IsLower(b) || IsDigit(b) }
  predicate IsSpace(b: Byte) { b == SPACE || 0x09 <= b <= 0x0D }

  function Lower(b: Byte): Byte {
    if IsUpper(b) then b + 0x20 else b
  }

  function Lowercase(s: Bytes): Bytes {
    Map(s, Lower)
  }

  function Upper(b: Byte): Byte {
    if IsLower(b) then b - 0x20 else b
  }

  function Uppercase(s: Bytes): Bytes {
    Map(s, Upper)
  }

  /** The bytes of a literal. */
  function Ascii(literal: string): Bytes {
    seq(|literal|, i requires 0 <= i < |literal| => literal[i] as int % 0x80)
  }

  predicate EndsWith(s: Bytes, suffix: Bytes) {
    |suffix| <= |s| && s[|s| - |suffix|..] == suffix
  }

  predicate OccursAt(s: Bytes, t: Bytes, i: nat) {
    i + |t| <= |s| && s[i..i + |t|] == t
  }

  predicate Contains(s: Bytes, t: Bytes) {
    exists i | 0 <= i <= |s| :: OccursAt(s, t, i)
  }

  function LastIndexOf(s: Bytes, b: Byte): (r: Option<nat>)
    ensures r.None? <==> b !in s
    ensures r.Some? ==> r.value < |s| && s[r.value] == b && forall k | r.value < k < |s| :: s[k] != b
  {
    if s == [] then None
    else match LastIndexOf(s[1..], b)
      case Some(i) => Some(i + 1)
      case None => if s[0] == b then Some(0) else None
  }

  /** `Path::extension`: what follows the last dot, unless that dot comes first. */
  function Extension(filename: Bytes): Option<Bytes> {
    match LastIndexOf(filename, DOT)
    case Some(dot) => if dot == 0 then None else Some(filename[dot + 1..])
    case None => None
  }

  // ---------------------------------------------------------------- words

  function WordEnd(s: Bytes): (end: nat)
    ensures end <= |s| && forall k | 0 <= k < end :: !IsSpace(s[k])
    ensures end < |s| ==> IsSpace(s[end])
  {
    if s == [] || IsSpace(s[0]) then 0 else 1 + WordEnd(s[1..])
  }

  /** `split_whitespace`. */
  function SplitWhitespace(s: Bytes): (words: seq<Bytes>)
    ensures forall w | w in words :: w != []
  {
    if s == [] then []
    else if IsSpace(s[0]) then SplitWhitespace(s[1..])
    else [s[..WordEnd(s)]] + SplitWhitespace(s[WordEnd(s)..])
  }

  /** `s[i..j]` is a stretch without white space that cannot be extended. */
  predicate MaximalRun(s: Bytes, i: nat, j: nat) {
    && i < j <= |s|
    && (forall k | i <= k < j :: !IsSpace(s[k]))
    && (i > 0 ==> IsSpace(s[i - 1]))
    && (j < |s| ==> IsSpace(s[j]))
  }

  /** A run beyond a prefix is a run of what follows the prefix. */
  lemma RunInTail(s: Bytes, shift: nat, i: nat, j: nat)
    requires shift <= i && MaximalRun(s, i, j)
    ensures MaximalRun(s[shift..], i - shift, j - shift) && s[shift..][i - shift..j - shift] == s[i..j]
  {
  }

  lemma {:induction false} RunIsWord(s: Bytes, i: nat, j: nat)
    requires MaximalRun(s, i, j)
    ensures s[i..j] in SplitWhitespace(s)
    decreases |s|
  {
    hide WordEnd;
    var end := if IsSpace(s[0]) then 1 else WordEnd(s);
    if i > 0 || IsSpace(s[0]) {
      assert i > 0 ==> IsSpace(s[i - 1]);
      assert end <= i;
      RunInTail(s, end, i, j);
      hide MaximalRun;
      RunIsWord(s[end..], i - end, j - end);
    } else {
      assert j == end;
    }
  }

  lemma ShiftRun(s: Bytes, shift: nat, i: nat, j: nat)
    requires shift <= |s| && MaximalRun(s[shift..], i, j)
    requires i == 0 && shift > 0 ==> IsSpace(s[shift - 1])
    ensures MaximalRun(s, i + shift, j + shift) && s[i + shift..j + shift] == s[shift..][i..j]
  {
    assert forall k | i + shift <= k < j + shift :: s[k] == s[shift..][k - shift];
  }

  lemma {:induction false} WordIsRun(s: Bytes, w: Bytes) returns (i: nat, j: nat)
    requires w in SplitWhitespace(s)
    ensures MaximalRun(s, i, j) && s[i..j] == w
    decreases |s|
  {
    hide WordEnd;
    if IsSpace(s[0]) {
      i, j := WordIsRun(s[1..], w);
      ShiftRun(s, 1, i, j);
      i, j := i + 1, j + 1;
    } else {
      var end := WordEnd(s);
      if w == s[..end] {
        i, j := 0, end;
      } else {
        i, j := WordIsRun(s[end..], w);
        assert i > 0 by { assert IsSpace(s[end..][0]); }
        ShiftRun(s, end, i, j);
        i, j := i + end, j + end;
      }
    }
  }

  lemma EndOfPrefix(s: Bytes, rest: Bytes)
    requires rest != [] && IsSpace(rest[0])
    ensures WordEnd(s + rest) == WordEnd(s)
  {
    var (whole, end) := (s + rest, WordEnd(s));
    assert forall k | 0 <= k < |s| :: whole[k] == s[k];
    assert whole[|s|] == rest[0];
    EndUnique(whole, WordEnd(whole), end);
  }

  /** Where the first word ends is determined by where white space stands. */
  lemma EndUnique(s: Bytes, a: nat, b: nat)
    requires a < |s| && b < |s| && IsSpace(s[a]) && IsSpace(s[b])
    requires (forall k | 0 <= k < a :: !IsSpace(s[k])) && (forall k | 0 <= k < b :: !IsSpace(s[k]))
    ensures a == b
  {
  }

  /** White space separates: the words on either side of it are the words of the whole. */
  lemma {:induction false} SplitAtSpace(a: Bytes, space: Byte, b: Bytes)
    requires IsSpace(space)
    ensures SplitWhitespace(a + [space] + b) == SplitWhitespace(a) + SplitWhitespace(b)
    decreases |a|
  {
    hide WordEnd;
    var s := a + [space] + b;
    if a == [] {
      assert s[1..] == b;
    } else if IsSpace(a[0]) {
      assert s[1..] == a[1..] + [space] + b;
      SplitAtSpace(a[1..], space, b);
    } else {
      var end := WordEnd(a);
      assert s == a + ([space] + b);
      EndOfPrefix(a, [space] + b);
      assert end > 0 by { assert !IsSpace(a[0]); }
      assert s[..end] == a[..end] && s[end..] == a[end..] + [space] + b;
      SplitAtSpace(a[end..], space, b);
    }
  }

  lemma OneWord(w: Bytes)
    requires w != [] && forall k | 0 <= k < |w| :: !IsSpace(w[k])
    ensures SplitWhitespace(w) == [w]
  {
    assert WordEnd(w) == |w|;
    assert SplitWhitespace(w[|w|..]) == [];
    assert w[..|w|] == w;
  }

  // ---------------------------------------------------------------- names

  lemma LastIs(s: Bytes, b: Byte, i: nat)
    requires i < |s| && s[i] == b && forall k | i < k < |s| :: s[k] != b
    ensures LastIndexOf(s, b) == Some(i)
  {
    var r := LastIndexOf(s, b);
    assert s[i] in s;
  }

  lemma LastDot(stem: Bytes, ext: Bytes)
    requires DOT !in ext
    ensures LastIndexOf(stem + [DOT] + ext, DOT) == Some(|stem|)
  {
    var s := stem + [DOT] + ext;
    forall k | |stem| < k < |s|
      ensures s[k] != DOT
    {
      assert s[k] == ext[k - |stem| - 1];
    }
    LastIs(s, DOT, |stem|);
  }

  /** The extension is what follows the last dot, and a name with nothing in front of it has none. */
  lemma ExtensionExactly(stem: Bytes, ext: Bytes)
    requires DOT !in ext
    ensures Extension(stem + [DOT] + ext) == if stem == [] then None else Some(ext)
    ensures Extension(ext) == None
  {
    LastDot(stem, ext);
    assert (stem + [DOT] + ext)[|stem| + 1..] == ext;
  }

  // ---------------------------------------------------------------- letters

  lemma SpaceExactly(b: Byte)
    ensures IsSpace(b) <==> b in Ascii(" \t\n\r") || b == 0x0B || b == 0x0C
  {
    var spaces := Ascii(" \t\n\r");
    assert spaces[0] == 0x20 && spaces[1] == 0x09 && spaces[2] == 0x0A && spaces[3] == 0x0D;
  }

  lemma DigitExactly(b: Byte)
    ensures IsDigit(b) <==> b in Ascii("0123456789")
  {
    var digits := Ascii("0123456789");
    assert forall i | 0 <= i < 10 :: digits[i] == 0x30 + i;
    assert IsDigit(b) ==> digits[b - 0x30] == b;
  }

  lemma LargeLetters()
    ensures var large := Ascii("ABCDEFGHIJKLMNOPQRSTUVWXYZ");
            |large| == 26 && forall i | 0 <= i < 26 :: large[i] == 0x41 + i
  {
  }

  lemma SmallLetters()
    ensures var small := Ascii("abcdefghijklmnopqrstuvwxyz");
            |small| == 26 && forall i | 0 <= i < 26 :: small[i] == 0x61 + i
  {
  }

  predicate Alphabets(large: Bytes, small: Bytes) {
    |large| == |small| == 26 && forall i | 0 <= i < 26 :: large[i] == 0x41 + i && small[i] == 0x61 + i
  }

  lemma LettersOfAlphabets(large: Bytes, small: Bytes, b: Byte)
    requires Alphabets(large, small)
    ensures IsAlphanumeric(b) && !IsDigit(b) <==> b in large || b in small
    ensures Lowercase(large) == small && Uppercase(small) == large
    ensures (b !in large ==> Lower(b) == b) && (b !in small ==> Upper(b) == b)
  {
    assert IsUpper(b) ==> large[b - 0x41] == b;
    assert IsLower(b) ==> small[b - 0x61] == b;
  }

  /** The two cases of the letters; no other byte has one. */
  lemma LettersExactly(b: Byte)
    ensures var (large, small) := (Ascii("ABCDEFGHIJKLMNOPQRSTUVWXYZ"), Ascii("abcdefghijklmnopqrstuvwxyz"));
            && (IsAlphanumeric(b) && !IsDigit(b) <==> b in large || b in small)
            && Lowercase(large) == small && Uppercase(small) == large
            && (b !in large ==> Lower(b) == b) && (b !in small ==> Upper(b) == b)
  {
    hide Ascii, IsAlphanumeric, IsDigit, Lowercase, Uppercase, Lower, Upper;
    LargeLetters();
    SmallLetters();
    LettersOfAlphabets(Ascii("ABCDEFGHIJKLMNOPQRSTUVWXYZ"), Ascii("abcdefghijklmnopqrstuvwxyz"), b);
  }

  lemma LowercaseTwice(s: Bytes)
    ensures Lowercase(Lowercase(s)) == Lowercase(s)
  {
  }
}
