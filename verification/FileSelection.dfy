/** Ranking of search results: which offered files are worth trying, in which order. Scores are
    real numbers; text is that of module Text. */
module FileSelection {
  import opened Wrappers
  import opened Bytes
  import opened Seqs
  import opened Text
  import opened Messages

  // ---------------------------------------------------------------- queries and titles

  function TrimStart(s: Bytes, p: Byte -> bool): (r: Bytes)
    ensures |r| <= |s| && (r != [] ==> !p(r[0]))
  {
    if s == [] || !p(s[0]) then s else TrimStart(s[1..], p)
  }

  function TrimEnd(s: Bytes, p: Byte -> bool): (r: Bytes)
    ensures |r| <= |s| && (r != [] ==> !p(r[|r| - 1]))
  {
    if s == [] || !p(s[|s| - 1]) then s else TrimEnd(s[..|s| - 1], p)
  }

  function Trim(s: Bytes): Bytes {
    TrimEnd(TrimStart(s, IsSpace), IsSpace)
  }

  function FindFrom(s: Bytes, t: Bytes, from: nat): (r: Option<nat>)
    requires from <= |s| + 1
    ensures r.Some? ==> from <= r.value <= |s| && OccursAt(s, t, r.value)
    ensures r.Some? ==> forall i | from <= i < r.value :: !OccursAt(s, t, i)
    ensures r.None? ==> forall i | from <= i <= |s| :: !OccursAt(s, t, i)
    decreases |s| + 1 - from
  {
    if from > |s| then None else if OccursAt(s, t, from) then Some(from) else FindFrom(s, t, from + 1)
  }

  function Find(s: Bytes, t: Bytes): (r: Option<nat>)
    ensures r.Some? <==> Contains(s, t)
    ensures r.Some? ==> OccursAt(s, t, r.value) && forall i: nat | i < r.value :: !OccursAt(s, t, i)
  {
    FindFrom(s, t, 0)
  }

  /** The artist, if the query names one, and the title. */
  function ParseQuery(query: Bytes): (Option<Bytes>, Bytes) {
    match Find(query, Ascii(" - "))
    case Some(i) => (Some(Lowercase(Trim(query[..i]))), Lowercase(Trim(query[i + 3..])))
    case None => (None, Lowercase(Trim(query)))
  }

  /** Where "artist - title" is split: behind the artist exactly when the separator does not already occur
      in the artist followed by its space. */
  lemma SeparatorFound(artist: Bytes, title: Bytes)
    ensures var (s, at) := (artist + Ascii(" - ") + title, Find(artist + Ascii(" - ") + title, Ascii(" - ")));
            && at.Some? && at.value <= |artist|
            && (at.value == |artist| <==> !Contains(artist + [SPACE], Ascii(" - ")))
            && s[..|artist|] == artist && s[|artist| + 3..] == title
  {
    var (s, mark) := (artist + Ascii(" - ") + title, Ascii(" - "));
    assert mark == [SPACE, DASH, SPACE];
    hide Ascii, FindFrom;
    assert s[|artist|..|artist| + 3] == mark;
    assert OccursAt(s, mark, |artist|);
    forall i: nat | i < |artist|
      ensures OccursAt(s, mark, i) <==> OccursAt(artist + [SPACE], mark, i)
    {
      EarlyMark(artist, title, i);
    }
    EarlyOnly(artist);
  }

  /** The query "artist - title", both parts trimmed, gives them back in lower case exactly when the
      separator does not already occur in the artist followed by its space. */
  lemma QueryNamesArtistAndTitle(artist: Bytes, title: Bytes)
    requires Trim(artist) == artist && Trim(title) == title
    ensures ParseQuery(artist + Ascii(" - ") + title) == (Some(Lowercase(artist)), Lowercase(title))
            <==> !Contains(artist + [SPACE], Ascii(" - "))
  {
    SeparatorFound(artist, title);
    hide Ascii, Trim, Find, Contains;
    var s := artist + Ascii(" - ") + title;
    var at := Find(s, Ascii(" - ")).value;
    if at < |artist| {
      TrimShortens(s[..at]);
    }
  }

  lemma EarlyMark(artist: Bytes, title: Bytes, i: nat)
    requires i < |artist|
    ensures var (s, mark) := (artist + Ascii(" - ") + title, Ascii(" - "));
            OccursAt(s, mark, i) <==> OccursAt(artist + [SPACE], mark, i)
  {
    var (s, t, mark) := (artist + Ascii(" - ") + title, artist + [SPACE], Ascii(" - "));
    assert mark == [SPACE, DASH, SPACE];
    if i + 3 <= |t| {
      assert s[i..i + 3] == t[i..i + 3];
    } else {
      assert s[i..i + 3][1] == s[i + 1] == SPACE;
    }
  }

  /** The mark has three bytes, so it cannot begin at the artist's end. */
  lemma EarlyOnly(artist: Bytes)
    ensures Contains(artist + [SPACE], Ascii(" - ")) <==>
            exists i: nat :: i < |artist| && OccursAt(artist + [SPACE], Ascii(" - "), i)
  {
    assert |Ascii(" - ")| == 3;
    hide Ascii;
  }

  lemma {:induction false} TrimShortens(s: Bytes)
    ensures |Trim(s)| <= |s|
  {
  }

  function Join(words: seq<Bytes>): Bytes {
    if words == [] then []
    else if |words| == 1 then words[0]
    else words[0] + [SPACE] + Join(words[1..])
  }

  function Matchable(s: Bytes): Bytes {
    Filter(Lowercase(s), b => IsAlphanumeric(b) || IsSpace(b))
  }

  function NormalizeForMatching(s: Bytes): Bytes {
    Join(SplitWhitespace(Matchable(s)))
  }

  function Basename(filename: Bytes): Bytes {
    var afterSlash := match LastIndexOf(filename, SLASH) case Some(i) => filename[i + 1..] case None => filename;
    match LastIndexOf(afterSlash, BACKSLASH) case Some(i) => afterSlash[i + 1..] case None => afterSlash
  }

  function WithoutExtension(name: Bytes): Bytes {
    match LastIndexOf(name, DOT) case Some(i) => name[..i] case None => name
  }

  predicate IsPrefixMark(b: Byte) {
    b == SPACE || b == DASH || b == DOT || b == 0x5F
  }

  /** The file's name without path, extension and track number. */
  function ExtractTrackName(filename: Bytes): Bytes {
    NormalizeForMatching(Trim(TrimStart(TrimStart(WithoutExtension(Basename(filename)), IsDigit), IsPrefixMark)))
  }

  function WordSet(s: Bytes): set<Bytes> {
    set w | w in SplitWhitespace(s)
  }

  // ---------------------------------------------------------------- normal forms

  predicate IsWord(w: Bytes) {
    w != [] && forall b | b in w :: IsAlphanumeric(b) && !IsUpper(b)
  }

  lemma {:induction false} WordsOfMatchable(s: Bytes)
    requires forall b | b in s :: (IsAlphanumeric(b) && !IsUpper(b)) || IsSpace(b)
    ensures forall w | w in SplitWhitespace(s) :: IsWord(w)
    decreases |s|
  {
    if s != [] {
      if IsSpace(s[0]) {
        WordsOfMatchable(s[1..]);
      } else {
        WordsOfMatchable(s[WordEnd(s)..]);
      }
    }
  }

  lemma WordEndOfWord(w: Bytes, rest: Bytes)
    requires IsWord(w) && (rest != [] ==> IsSpace(rest[0]))
    ensures WordEnd(w + rest) == |w|
  {
    hide WordEnd;
    var s := w + rest;
    forall k | 0 <= k < |w|
      ensures !IsSpace(s[k])
    {
      assert s[k] == w[k] && w[k] in w;
    }
    assert rest != [] ==> s[|w|] == rest[0];
  }

  lemma {:induction false} SplitJoined(words: seq<Bytes>)
    requires forall w | w in words :: IsWord(w)
    ensures SplitWhitespace(Join(words)) == words
  {
    if words != [] {
      var rest := if |words| == 1 then [] else [SPACE] + Join(words[1..]);
      var s := words[0] + rest;
      assert Join(words) == s;
      WordEndOfWord(words[0], rest);
      assert s[0] == words[0][0] && s[0] in words[0];
      assert s[..|words[0]|] == words[0] && s[|words[0]|..] == rest;
      SplitJoined(words[1..]);
      if |words| > 1 {
        assert rest[1..] == Join(words[1..]);
      }
    }
  }

  lemma {:induction false} JoinedIsMatchable(words: seq<Bytes>)
    requires forall w | w in words :: IsWord(w)
    ensures forall b | b in Join(words) :: (IsAlphanumeric(b) && !IsUpper(b)) || IsSpace(b)
  {
    if words != [] {
      assert words[0] in words;
      if |words| > 1 {
        JoinedIsMatchable(words[1..]);
      }
    }
  }

  lemma {:induction false} LowercaseKeeps(s: Bytes)
    requires forall b | b in s :: !IsUpper(b)
    ensures Lowercase(s) == s
  {
  }

  lemma MatchableLetters(s: Bytes)
    ensures forall b | b in Matchable(s) :: (IsAlphanumeric(b) && !IsUpper(b)) || IsSpace(b)
  {
    forall b | b in Lowercase(s)
      ensures !IsUpper(b)
    {
    }
  }

  /** Normalising yields lower-case words separated by single spaces, and doing it again changes
      nothing. */
  lemma NormalizeTwice(s: Bytes)
    ensures NormalizeForMatching(NormalizeForMatching(s)) == NormalizeForMatching(s)
    ensures forall w | w in SplitWhitespace(NormalizeForMatching(s)) :: IsWord(w)
  {
    var words := SplitWhitespace(Matchable(s));
    MatchableLetters(s);
    WordsOfMatchable(Matchable(s));
    SplitJoined(words);
    JoinedIsMatchable(words);
    var n := Join(words);
    LowercaseKeeps(n);
    FilterAll(n, b => IsAlphanumeric(b) || IsSpace(b));
  }

  /** Two parts joined by one space, or the one that is not empty. */
  function Joined(a: Bytes, b: Bytes): Bytes {
    if a == [] then b else if b == [] then a else a + [SPACE] + b
  }

  lemma JoinEmpty(words: seq<Bytes>)
    requires forall w | w in words :: w != []
    ensures Join(words) == [] <==> words == []
  {
    assert words != [] ==> words[0] in words;
  }

  lemma {:induction false} JoinConcat(a: seq<Bytes>, b: seq<Bytes>)
    requires (forall w | w in a :: w != []) && (forall w | w in b :: w != [])
    ensures Join(a + b) == Joined(Join(a), Join(b))
  {
    JoinEmpty(a);
    JoinEmpty(b);
    if a == [] {
      assert a + b == b;
    } else if b == [] {
      assert a + b == a;
    } else {
      assert (a + b)[0] == a[0] && (a + b)[1..] == a[1..] + b;
      assert forall w | w in a[1..] :: w in a;
      JoinConcat(a[1..], b);
      JoinEmpty(a[1..]);
    }
  }

  /** White space of any kind and amount becomes a single space between two parts. */
  lemma NormalizeAtSpace(a: Bytes, space: Byte, b: Bytes)
    requires IsSpace(space)
    ensures NormalizeForMatching(a + [space] + b) == Joined(NormalizeForMatching(a), NormalizeForMatching(b))
  {
    var keep := b => IsAlphanumeric(b) || IsSpace(b);
    var (la, lb) := (Lowercase(a), Lowercase(b));
    assert Lowercase(a + [space] + b) == la + [space] + lb;
    FilterConcat(la + [space], lb, keep);
    FilterSnoc(la, space, keep);
    assert Matchable(a + [space] + b) == Matchable(a) + [space] + Matchable(b);
    SplitAtSpace(Matchable(a), space, Matchable(b));
    var (wa, wb) := (SplitWhitespace(Matchable(a)), SplitWhitespace(Matchable(b)));
    JoinConcat(wa, wb);
  }

  /** Without white space, the letters and digits are left, in lower case. */
  lemma NormalizeWord(s: Bytes)
    requires forall k | 0 <= k < |s| :: !IsSpace(s[k])
    ensures NormalizeForMatching(s) == Filter(Lowercase(s), IsAlphanumeric)
  {
    var low := Lowercase(s);
    forall b | b in low
      ensures !IsSpace(b)
    {
      var k :| 0 <= k < |low| && low[k] == b;
      assert b == Lower(s[k]);
    }
    FilterAgrees(low, (b: Byte) => IsAlphanumeric(b) || IsSpace(b), IsAlphanumeric);
    var kept := Filter(low, IsAlphanumeric);
    assert Matchable(s) == kept;
    forall k | 0 <= k < |kept|
      ensures !IsSpace(kept[k])
    {
      assert kept[k] in kept;
    }
    if kept != [] {
      OneWord(kept);
    }
  }

  lemma {:induction false} FilterAgrees(s: Bytes, p: Byte -> bool, q: Byte -> bool)
    requires forall b | b in s :: p(b) == q(b)
    ensures Filter(s, p) == Filter(s, q)
  {
    if s != [] {
      assert s[0] in s;
      FilterAgrees(s[1..], p, q);
    }
  }

  lemma {:induction false} NormalizeTrimStart(s: Bytes)
    ensures NormalizeForMatching(TrimStart(s, IsSpace)) == NormalizeForMatching(s)
  {
    hide NormalizeForMatching;
    if s != [] && IsSpace(s[0]) {
      NormalizeAtSpace([], s[0], s[1..]);
      assert [] + [s[0]] + s[1..] == s;
      NothingNormalizes();
      NormalizeTrimStart(s[1..]);
    }
  }

  lemma {:induction false} NormalizeTrimEnd(s: Bytes)
    ensures NormalizeForMatching(TrimEnd(s, IsSpace)) == NormalizeForMatching(s)
  {
    hide NormalizeForMatching;
    if s != [] && IsSpace(s[|s| - 1]) {
      NormalizeAtSpace(s[..|s| - 1], s[|s| - 1], []);
      assert s[..|s| - 1] + [s[|s| - 1]] + [] == s;
      NothingNormalizes();
      NormalizeTrimEnd(s[..|s| - 1]);
    }
  }

  lemma NormalizeTrim(s: Bytes)
    ensures NormalizeForMatching(Trim(s)) == NormalizeForMatching(s)
    ensures NormalizeForMatching(Lowercase(Trim(s))) == NormalizeForMatching(s)
  {
    NormalizeTrimStart(s);
    NormalizeTrimEnd(TrimStart(s, IsSpace));
    LowercaseTwice(Trim(s));
  }

  lemma NothingNormalizes()
    ensures NormalizeForMatching([]) == []
  {
    assert Matchable([]) == [];
  }

  // ---------------------------------------------------------------- names of tracks

  lemma {:induction false} TrimStartDrops(a: Bytes, b: Bytes, p: Byte -> bool)
    requires forall x | x in a :: p(x)
    requires b != [] ==> !p(b[0])
    ensures TrimStart(a + b, p) == b
  {
    if a == [] {
      assert a + b == b;
    } else {
      assert a[0] in a && (a + b)[1..] == a[1..] + b;
      TrimStartDrops(a[1..], b, p);
    }
  }

  predicate EndsPath(path: Bytes) {
    path == [] || path[|path| - 1] in Ascii("/\\")
  }

  lemma NoSeparatorInside(base: Bytes)
    requires SLASH !in base && BACKSLASH !in base
    ensures Basename(base) == base
  {
  }

  lemma LastInPath(path: Bytes, base: Bytes, b: Byte)
    requires path != [] && path[|path| - 1] == b && b !in base
    ensures LastIndexOf(path + base, b) == Some(|path| - 1) && (path + base)[|path|..] == base
  {
    var s := path + base;
    forall k | |path| - 1 < k < |s|
      ensures s[k] != b
    {
      assert s[k] == base[k - |path|];
    }
    LastIs(s, b, |path| - 1);
  }

  lemma InPrefix(path: Bytes, base: Bytes, i: nat)
    requires i < |path + base| && (path + base)[i] !in base
    ensures i < |path|
  {
    assert forall k | |path| <= k < |path + base| :: (path + base)[k] == base[k - |path|];
  }

  lemma BasenameExactly(path: Bytes, base: Bytes)
    requires EndsPath(path) && SLASH !in base && BACKSLASH !in base
    ensures Basename(path + base) == base
  {
    PathMarks();
    hide Ascii;
    var s := path + base;
    if path == [] {
      assert s == base;
      NoSeparatorInside(base);
    } else if path[|path| - 1] == SLASH {
      LastInPath(path, base, SLASH);
    } else {
      match LastIndexOf(s, SLASH)
      case None => LastInPath(path, base, BACKSLASH);
      case Some(i) =>
        InPrefix(path, base, i);
        assert s[i + 1..] == path[i + 1..] + base;
        LastInPath(path[i + 1..], base, BACKSLASH);
    }
  }

  /** The track's name is what stands between path and number on one side and extension on the other: after
      the last slash or backslash, any digits, any of " -._", and before the last dot. */
  lemma TrackNameExactly(path: Bytes, digits: Bytes, marks: Bytes, name: Bytes, ext: Bytes)
    requires EndsPath(path)
    requires (forall b | b in digits :: IsDigit(b)) && (forall b | b in marks :: b in Ascii(" -._"))
    requires name != [] ==> name[0] !in Ascii(" -._") && (marks == [] ==> !IsDigit(name[0]))
    requires (forall b | b in Ascii("/\\") :: b !in name && b !in ext) && Ascii(".")[0] !in ext
    ensures ExtractTrackName(path + (digits + (marks + name) + [DOT] + ext)) == NormalizeForMatching(name)
  {
    PrefixMarks();
    PathMarks();
    hide Ascii, NormalizeForMatching, Trim, LastIndexOf;
    var base := digits + (marks + name) + [DOT] + ext;
    forall b | b in digits + marks
      ensures b != SLASH && b != BACKSLASH
    {
    }
    BasenameExactly(path, base);
    LastDot(digits + (marks + name), ext);
    assert base[..|digits + (marks + name)|] == digits + (marks + name);
    assert marks != [] ==> marks[0] in marks && IsPrefixMark(marks[0]);
    TrimStartDrops(digits, marks + name, IsDigit);
    TrimStartDrops(marks, name, IsPrefixMark);
    NormalizeTrim(name);
  }

  lemma PathMarks()
    ensures forall b: Byte :: b in Ascii("/\\") <==> b == SLASH || b == BACKSLASH
    ensures |Ascii(".")| == 1 && Ascii(".")[0] == DOT
  {
    var marks := Ascii("/\\");
    assert marks[0] == SLASH && marks[1] == BACKSLASH;
  }

  lemma PrefixMarks()
    ensures forall b: Byte :: b in Ascii(" -._") <==> IsPrefixMark(b)
  {
    var marks := Ascii(" -._");
    assert marks[0] == SPACE && marks[1] == DASH && marks[2] == DOT && marks[3] == 0x5F;
  }

  // ---------------------------------------------------------------- scores

  predicate ShareWord(a: Bytes, b: Bytes) {
    WordSet(a) * WordSet(b) != {}
  }

  function TitleScore(filename: Bytes, expectedTitle: Bytes): real {
    var (track, expected) := (ExtractTrackName(filename), NormalizeForMatching(expectedTitle));
    if track == [] || expected == [] then 0.0
    else if track == expected then 1.0
    else if Contains(track, expected) then 0.9
    else if Contains(expected, track) then 0.7
    else if ShareWord(track, expected) then
      Ratio(|WordSet(track) * WordSet(expected)|, |WordSet(track) + WordSet(expected)|) * 0.6
    else 0.0
  }

  function Ratio(part: nat, whole: nat): real {
    if whole == 0 then 0.0 else part as real / whole as real
  }

  lemma RatioBounds(part: nat, whole: nat)
    requires 0 < part <= whole
    ensures 0.0 < Ratio(part, whole) <= 1.0
  {
    assert whole as real * Ratio(part, whole) == part as real;
  }

  /** One of the two names contains the other. */
  predicate Related(a: Bytes, b: Bytes) {
    a != [] && b != [] && (Contains(a, b) || Contains(b, a))
  }

  /** The share of their words that two names have in common. */
  function Overlap(a: Bytes, b: Bytes): real {
    if a == [] || b == [] then 0.0 else Ratio(|WordSet(a) * WordSet(b)|, |WordSet(a) + WordSet(b)|)
  }

  /** The title score is 1 for the expected title itself, at least 0.7 when one of the two names
      contains the other, positive when they share a word, and 0 otherwise. */
  lemma TitleScoreMeaning(filename: Bytes, title: Bytes)
    ensures var (score, a, b) := (TitleScore(filename, title), ExtractTrackName(filename), NormalizeForMatching(title));
            && 0.0 <= score <= 1.0
            && (score == 1.0 <==> a == b && a != [])
            && (score == 0.9 <==> a != [] && b != [] && a != b && Contains(a, b))
            && (score == 0.7 <==> a != [] && b != [] && a != b && Contains(b, a) && !Contains(a, b))
            && (score > 0.6 <==> Related(a, b))
            && (!Related(a, b) ==> score == 0.6 * Overlap(a, b))
            && (score > 0.0 <==> a != [] && b != [] && (Contains(a, b) || Contains(b, a) || ShareWord(a, b)))
  {
    hide Contains, ExtractTrackName, NormalizeForMatching;
    var (a, b) := (ExtractTrackName(filename), NormalizeForMatching(title));
    ContainsItself(a);
    NothingInCommon(a, b);
    if ShareWord(a, b) {
      var (x, y) := (WordSet(a), WordSet(b));
      SubsetSize(x * y, x + y);
      RatioBounds(|x * y|, |x + y|);
    }
  }

  lemma NothingInCommon(a: Bytes, b: Bytes)
    ensures !ShareWord(a, b) ==> Overlap(a, b) == 0.0
  {
    hide WordSet;
  }

  lemma ContainsItself(a: Bytes)
    ensures Contains(a, a)
  {
    assert OccursAt(a, a, 0);
  }

  const REMIX_INDICATORS: seq<Bytes> := [
    Ascii("remix"), Ascii("mix)"), Ascii("edit"), Ascii("version)"), Ascii("instrumental"), Ascii("acapella"),
    Ascii("a cappella"), Ascii("radio edit"), Ascii("live"), Ascii("demo"), Ascii("vip"), Ascii("bootleg"),
    Ascii("cover"), Ascii("acoustic")]

  /** The file is a version of the track that the query does not ask for. */
  predicate UnwantedVersion(filename: Bytes, query: Bytes) {
    exists indicator | indicator in REMIX_INDICATORS ::
      Contains(Lowercase(filename), indicator) && !Contains(Lowercase(query), indicator)
  }

  /** The fourteen words that mark another version. */
  lemma VersionWordsExactly(filename: Bytes, query: Bytes)
    ensures UnwantedVersion(filename, query) <==>
              exists word | word in [Ascii("remix"), Ascii("mix)"), Ascii("edit"), Ascii("version)"),
                                     Ascii("instrumental"), Ascii("acapella"), Ascii("a cappella"), Ascii("radio edit"),
                                     Ascii("live"), Ascii("demo"), Ascii("vip"), Ascii("bootleg"), Ascii("cover"),
                                     Ascii("acoustic")] ::
                Contains(Lowercase(filename), word) && !Contains(Lowercase(query), word)
  {
    hide Contains, Ascii;
  }

  predicate UnaskedExtended(filename: Bytes, query: Bytes) {
    Contains(Lowercase(filename), Ascii("extended")) && !Contains(Lowercase(query), Ascii("extended"))
  }

  method CalculateRemixPenalty(filename: Bytes, query: Bytes) returns (penalty: real)
    ensures penalty == if UnwantedVersion(filename, query) then 30.0 else 0.0
  {
    var (filenameLower, queryLower) := (Lowercase(filename), Lowercase(query));
    for i := 0 to |REMIX_INDICATORS|
      invariant forall indicator | indicator in REMIX_INDICATORS[..i] ::
                  !(Contains(filenameLower, indicator) && !Contains(queryLower, indicator))
    {
      if Contains(filenameLower, REMIX_INDICATORS[i]) {
        if !Contains(queryLower, REMIX_INDICATORS[i]) {
          return 30.0;
        }
      }
    }
    penalty := 0.0;
  }

  function FormatScore(filename: Bytes, bitrate: Option<U32>): (points: real)
    ensures 0.0 <= points <= 30.0
  {
    var lower := Lowercase(filename);
    if EndsWith(lower, Ascii(".flac")) then 30.0
    else if EndsWith(lower, Ascii(".wav")) then 25.0
    else if EndsWith(lower, Ascii(".mp3")) then
      match bitrate
      case Some(br) =>
        if br >= 320 then 20.0 else if br >= 256 then 15.0 else if br >= 192 then 8.0
        else if br >= 128 then 2.0 else 0.0
      case None => 5.0
    else if EndsWith(lower, Ascii(".m4a")) || EndsWith(lower, Ascii(".aac")) then 12.0
    else if EndsWith(lower, Ascii(".aiff")) || EndsWith(lower, Ascii(".aif")) then 25.0
    else if EndsWith(lower, Ascii(".ogg")) then
      match bitrate
      case Some(br) =>
        if br >= 320 then 18.0 else if br >= 256 then 14.0 else if br >= 192 then 8.0
        else if br >= 128 then 3.0 else 0.0
      case None => 10.0
    else 0.0
  }

  /** FLAC beats every other format, WAV beats MP3, and a higher bitrate never scores less. */
  lemma BetterFormatsScoreHigher(a: Bytes, b: Bytes, rateA: Option<U32>, rateB: Option<U32>)
    ensures EndsWith(Lowercase(a), Ascii(".flac")) && !EndsWith(Lowercase(b), Ascii(".flac")) ==>
              FormatScore(a, rateA) > FormatScore(b, rateB)
    ensures EndsWith(Lowercase(a), Ascii(".wav")) && EndsWith(Lowercase(b), Ascii(".mp3"))
            && !EndsWith(Lowercase(b), Ascii(".wav")) && !EndsWith(Lowercase(b), Ascii(".flac")) ==>
              FormatScore(a, rateA) > FormatScore(b, rateB)
    ensures rateA.Some? && rateB.Some? && rateA.value <= rateB.value ==> FormatScore(a, rateA) <= FormatScore(a, rateB)
  {
    hide EndsWith, Lowercase, Ascii;
  }

  function ScoreFile(filename: Bytes, bitrate: Option<U32>, title: Bytes, query: Bytes): real {
    TitleScore(filename, title) * 100.0 + FormatScore(filename, bitrate)
    - (if UnwantedVersion(filename, query) then 30.0 else 0.0)
    + (if UnaskedExtended(filename, query) then 10.0 else 0.0)
  }

  predicate IsAudioFile(filename: Bytes) {
    var lower := Lowercase(filename);
    || EndsWith(lower, Ascii(".mp3")) || EndsWith(lower, Ascii(".flac")) || EndsWith(lower, Ascii(".wav"))
    || EndsWith(lower, Ascii(".ogg")) || EndsWith(lower, Ascii(".m4a")) || EndsWith(lower, Ascii(".aac"))
    || EndsWith(lower, Ascii(".aiff")) || EndsWith(lower, Ascii(".aif"))
  }

  /** Without a filter, or with one it does not know, every file matches. */
  predicate MatchesFormat(filename: Bytes, format: Option<Bytes>) {
    var lower := Lowercase(filename);
    match format
    case None => true
    case Some(f) =>
      if f == Ascii("mp3") then EndsWith(lower, Ascii(".mp3"))
      else if f == Ascii("flac") then EndsWith(lower, Ascii(".flac"))
      else if f == Ascii("m4a") then EndsWith(lower, Ascii(".m4a"))
      else if f == Ascii("wav") then EndsWith(lower, Ascii(".wav"))
      else if f == Ascii("aiff") then EndsWith(lower, Ascii(".aiff")) || EndsWith(lower, Ascii(".aif"))
      else if f == Ascii("ogg") then EndsWith(lower, Ascii(".ogg"))
      else true
  }

  // ---------------------------------------------------------------- names by their extension

  lemma LowerParts(stem: Bytes, ext: Bytes)
    requires DOT !in ext
    ensures Lowercase(stem + [DOT] + ext) == Lowercase(stem) + [DOT] + Lowercase(ext) && DOT !in Lowercase(ext)
  {
    assert forall b: Byte :: Lower(b) == DOT <==> b == DOT;
    assert forall k | 0 <= k < |ext| :: ext[k] in ext;
  }

  /** A name ends in a dot and an extension exactly when that is its extension. */
  lemma EndsInExtension(stem: Bytes, ext: Bytes, known: Bytes)
    requires DOT !in ext && DOT !in known
    ensures EndsWith(stem + [DOT] + ext, [DOT] + known) <==> ext == known
  {
    var (s, suffix) := (stem + [DOT] + ext, [DOT] + known);
    if ext == known {
      assert s[|s| - |suffix|..] == suffix;
    }
    if EndsWith(s, suffix) {
      var at := |s| - |suffix|;
      assert s == s[..at] + [DOT] + known;
      LastDot(s[..at], known);
      LastDot(stem, ext);
      assert s[at + 1..] == ext && s[at + 1..] == known;
    }
  }

  lemma Literals()
    ensures Ascii(".mp3") == [DOT] + Ascii("mp3") && Ascii(".flac") == [DOT] + Ascii("flac")
    ensures Ascii(".wav") == [DOT] + Ascii("wav") && Ascii(".ogg") == [DOT] + Ascii("ogg")
    ensures Ascii(".m4a") == [DOT] + Ascii("m4a") && Ascii(".aac") == [DOT] + Ascii("aac")
    ensures Ascii(".aiff") == [DOT] + Ascii("aiff") && Ascii(".aif") == [DOT] + Ascii("aif")
  {
  }

  lemma NoDots()
    ensures DOT !in Ascii("mp3") && DOT !in Ascii("flac") && DOT !in Ascii("wav") && DOT !in Ascii("ogg")
    ensures DOT !in Ascii("m4a") && DOT !in Ascii("aac") && DOT !in Ascii("aiff") && DOT !in Ascii("aif")
  {
  }

  /** Which of the endings a name has, by its extension. */
  lemma EndingsOf(stem: Bytes, ext: Bytes)
    requires DOT !in ext
    ensures var (lower, e) := (Lowercase(stem + [DOT] + ext), Lowercase(ext));
            && (EndsWith(lower, Ascii(".mp3")) <==> e == Ascii("mp3"))
            && (EndsWith(lower, Ascii(".flac")) <==> e == Ascii("flac"))
            && (EndsWith(lower, Ascii(".wav")) <==> e == Ascii("wav"))
            && (EndsWith(lower, Ascii(".ogg")) <==> e == Ascii("ogg"))
            && (EndsWith(lower, Ascii(".m4a")) <==> e == Ascii("m4a"))
            && (EndsWith(lower, Ascii(".aac")) <==> e == Ascii("aac"))
            && (EndsWith(lower, Ascii(".aiff")) <==> e == Ascii("aiff"))
            && (EndsWith(lower, Ascii(".aif")) <==> e == Ascii("aif"))
  {
    LowerParts(stem, ext);
    Literals();
    NoDots();
    hide Lowercase, Ascii, EndsWith;
    var (s, e) := (Lowercase(stem), Lowercase(ext));
    EndsInExtension(s, e, Ascii("mp3"));
    EndsInExtension(s, e, Ascii("flac"));
    EndsInExtension(s, e, Ascii("wav"));
    EndsInExtension(s, e, Ascii("ogg"));
    EndsInExtension(s, e, Ascii("m4a"));
    EndsInExtension(s, e, Ascii("aac"));
    EndsInExtension(s, e, Ascii("aiff"));
    EndsInExtension(s, e, Ascii("aif"));
  }

  /** A file counts as audio exactly when its extension, in letters of either case, is one of eight. */
  lemma AudioExactly(stem: Bytes, ext: Bytes)
    requires DOT !in ext
    ensures var e := Lowercase(ext);
            IsAudioFile(stem + [DOT] + ext) <==>
              || e == Ascii("mp3") || e == Ascii("flac") || e == Ascii("wav") || e == Ascii("ogg")
              || e == Ascii("m4a") || e == Ascii("aac") || e == Ascii("aiff") || e == Ascii("aif")
  {
    EndingsOf(stem, ext);
    hide Lowercase, Ascii, EndsWith;
  }

  lemma FormatsDiffer()
    ensures var all := [Ascii("mp3"), Ascii("flac"), Ascii("m4a"), Ascii("wav"), Ascii("aiff"), Ascii("ogg")];
            forall i, j | 0 <= i < j < 6 :: all[i] != all[j]
  {
    assert Ascii("mp3")[0] == 0x6D && Ascii("flac")[0] == 0x66 && Ascii("m4a")[0] == 0x6D && Ascii("wav")[0] == 0x77;
    assert Ascii("mp3")[1] == 0x70 && Ascii("m4a")[1] == 0x34 && Ascii("aiff")[0] == 0x61 && Ascii("ogg")[0] == 0x6F;
  }

  /** A format that is asked for is exactly the extension the file must have, in letters of either case;
      only "aiff" admits "aif" as well, and no format or another one admits every file. */
  lemma FormatExactly(stem: Bytes, ext: Bytes, format: Bytes)
    requires DOT !in ext
    ensures var (name, e) := (stem + [DOT] + ext, Lowercase(ext));
            var known := [Ascii("mp3"), Ascii("flac"), Ascii("m4a"), Ascii("wav"), Ascii("aiff"), Ascii("ogg")];
            && MatchesFormat(name, None)
            && (MatchesFormat(name, Some(format)) <==>
                  format !in known || e == format || (format == Ascii("aiff") && e == Ascii("aif")))
  {
    EndingsOf(stem, ext);
    FormatsDiffer();
    hide Lowercase, Ascii, EndsWith;
    var known := [Ascii("mp3"), Ascii("flac"), Ascii("m4a"), Ascii("wav"), Ascii("aiff"), Ascii("ogg")];
    assert format in known <==>
             || format == known[0] || format == known[1] || format == known[2] || format == known[3]
             || format == known[4] || format == known[5];
    assert known[0] != known[1] && known[0] != known[2] && known[1] != known[2];
  }

  /** Points by bitrate, in four steps; the third is worth 8 for either format. */
  function StepsOf(bitrate: U32, high: real, good: real, poor: real): real {
    if bitrate < 128 then 0.0
    else if bitrate < 192 then poor
    else if bitrate < 256 then 8.0
    else if bitrate < 320 then good
    else high
  }

  /** The points of a format: lossless first, then by bitrate, as far as it is known. */
  function PointsFor(extension: Bytes, bitrate: Option<U32>): real {
    if extension == Ascii("flac") then 30.0
    else if extension == Ascii("wav") then 25.0
    else if extension == Ascii("mp3") then
      match bitrate case Some(b) => StepsOf(b, 20.0, 15.0, 2.0) case None => 5.0
    else if extension == Ascii("m4a") || extension == Ascii("aac") then 12.0
    else if extension == Ascii("aiff") || extension == Ascii("aif") then 25.0
    else if extension == Ascii("ogg") then
      match bitrate case Some(b) => StepsOf(b, 18.0, 14.0, 3.0) case None => 10.0
    else 0.0
  }

  /** The points depend on the extension alone, in letters of either case, and the bitrate. */
  lemma FormatPoints(stem: Bytes, ext: Bytes, bitrate: Option<U32>)
    requires DOT !in ext
    ensures FormatScore(stem + [DOT] + ext, bitrate) == PointsFor(Lowercase(ext), bitrate)
  {
    EndingsOf(stem, ext);
    hide Lowercase, Ascii, EndsWith;
  }

  // ---------------------------------------------------------------- offers

  /** One file of one peer. */
  datatype Offer = Offer(result: SearchResult, file: SearchFile)

  datatype Request = Request(query: Bytes, format: Option<Bytes>)

  function OffersOf(result: SearchResult, files: seq<SearchFile>): seq<Offer> {
    Map(files, file => Offer(result, file))
  }

  function AllOffers(results: seq<SearchResult>): seq<Offer> {
    if results == [] then [] else OffersOf(results[0], results[0].files) + AllOffers(results[1..])
  }

  function SpeedBonus(avgSpeed: U32): (points: real)
    ensures 0.0 <= points <= 25.0
  {
    var share := avgSpeed as real / 1024.0 / 1024.0;
    (if share < 1.0 then share else 1.0) * 25.0
  }

  function QueuePenalty(queueLength: U64): (points: real)
    ensures 0.0 <= points <= 5.0
  {
    var length := queueLength as real / 10.0;
    if length < 5.0 then length else 5.0
  }

  /** A point for each 25th of a megabyte a second, up to one megabyte. */
  lemma SpeedBonusExactly(avgSpeed: U32)
    ensures 1048576.0 * SpeedBonus(avgSpeed)
         == if avgSpeed <= 1048576 then 25.0 * avgSpeed as real else 25.0 * 1048576.0
  {
  }

  /** A tenth of a point for each waiting upload, up to fifty of them. */
  lemma QueuePenaltyExactly(queueLength: U64)
    ensures 10.0 * QueuePenalty(queueLength) == if queueLength <= 50 then queueLength as real else 50.0
  {
  }

  function Title(request: Request): Bytes {
    ParseQuery(request.query).1
  }

  /** Everything in the score but the title match. */
  function Extras(offer: Offer, request: Request): real {
    FormatScore(offer.file.filename, Bitrate(offer.file.attributes))
    - (if UnwantedVersion(offer.file.filename, request.query) then 30.0 else 0.0)
    + (if UnaskedExtended(offer.file.filename, request.query) then 10.0 else 0.0)
    + SpeedBonus(offer.result.avgSpeed) - QueuePenalty(offer.result.queueLength)
  }

  function Score(offer: Offer, request: Request): real {
    ScoreFile(offer.file.filename, Bitrate(offer.file.attributes), Title(request), request.query)
    + SpeedBonus(offer.result.avgSpeed) - QueuePenalty(offer.result.queueLength)
  }

  predicate IsWanted(offer: Offer, request: Request) {
    IsAudioFile(offer.file.filename) && MatchesFormat(offer.file.filename, request.format)
  }

  predicate Eligible(offer: Offer, request: Request) {
    offer.result.hasSlots && IsWanted(offer, request) && Score(offer, request) > 50.0
  }

  function Scored(offer: Offer, score: real): ScoredFile {
    ScoredFile(offer.result.username, offer.file.filename, offer.file.size, Bitrate(offer.file.attributes), score,
               offer.result.hasSlots, offer.result.avgSpeed, offer.result.queueLength, offer.result.peerIp,
               offer.result.peerPort)
  }

  function Candidates(offers: seq<Offer>, request: Request): seq<ScoredFile> {
    Map(Filter(offers, offer => Eligible(offer, request)), offer => Scored(offer, Score(offer, request)))
  }

  predicate Better(a: ScoredFile, b: ScoredFile) {
    a.score >= b.score
  }

  function BestFiles(results: seq<SearchResult>, request: Request): seq<ScoredFile> {
    if Title(request) == [] then [] else StableSort(Candidates(AllOffers(results), request), Better)
  }

  lemma CandidatesConcat(a: seq<Offer>, b: seq<Offer>, request: Request)
    ensures Candidates(a + b, request) == Candidates(a, request) + Candidates(b, request)
  {
    var p := offer => Eligible(offer, request);
    FilterConcat(a, b, p);
    MapConcat(Filter(a, p), Filter(b, p), offer => Scored(offer, Score(offer, request)));
  }

  lemma {:induction false} AllOffersSnoc(results: seq<SearchResult>, last: SearchResult)
    ensures AllOffers(results + [last]) == AllOffers(results) + OffersOf(last, last.files)
  {
    if results == [] {
      assert [last][1..] == [];
    } else {
      assert (results + [last])[1..] == results[1..] + [last];
      AllOffersSnoc(results[1..], last);
    }
  }

  /** A peer without free slots contributes nothing. */
  lemma NoSlotsNoCandidates(result: SearchResult, request: Request)
    requires !result.hasSlots
    ensures Candidates(OffersOf(result, result.files), request) == []
  {
    FilterNone(OffersOf(result, result.files), offer => Eligible(offer, request));
  }

  // ---------------------------------------------------------------- the ranking

  predicate Offered(results: seq<SearchResult>, offer: Offer) {
    offer.result in results && offer.file in offer.result.files
  }

  lemma {:induction false} OffersAreOffered(results: seq<SearchResult>)
    ensures forall offer | offer in AllOffers(results) :: Offered(results, offer)
    ensures forall result, file | result in results && file in result.files :: Offer(result, file) in AllOffers(results)
  {
    if results != [] {
      OffersAreOffered(results[1..]);
      var own := OffersOf(results[0], results[0].files);
      forall file | file in results[0].files
        ensures Offer(results[0], file) in own
      {
        var i :| 0 <= i < |results[0].files| && results[0].files[i] == file;
        assert own[i] == Offer(results[0], file);
      }
      assert results == [results[0]] + results[1..];
    }
  }

  function ScoredAt(files: seq<ScoredFile>, score: real): seq<ScoredFile> {
    Filter(files, (c: ScoredFile) => c.score == score)
  }

  lemma BetterIsTotal()
    ensures TotalPreorder(Better)
  {
  }

  /** The ranking is a permutation of the eligible offers, best first, and offers with equal scores
      keep the order in which they came. */
  lemma RankingIsSortedPermutation(results: seq<SearchResult>, request: Request)
    requires Title(request) != []
    ensures var best := BestFiles(results, request);
            && multiset(best) == multiset(Candidates(AllOffers(results), request))
            && (forall i, j | 0 <= i < j < |best| :: best[i].score >= best[j].score)
            && forall score :: ScoredAt(best, score) == ScoredAt(Candidates(AllOffers(results), request), score)
  {
    var candidates := Candidates(AllOffers(results), request);
    BetterIsTotal();
    SortPermutes(candidates, Better);
    SortSorts(candidates, Better);
    forall score
      ensures ScoredAt(StableSort(candidates, Better), score) == ScoredAt(candidates, score)
    {
      SortIsStable(candidates, Better, (c: ScoredFile) => c.score == score);
    }
  }

  lemma ScoreBounds(offer: Offer, request: Request)
    ensures -35.0 <= Score(offer, request) <= 165.0
    ensures Score(offer, request) == 100.0 * TitleScore(offer.file.filename, Title(request)) + Extras(offer, request)
  {
    TitleScoreMeaning(offer.file.filename, Title(request));
    hide TitleScore, UnwantedVersion, UnaskedExtended;
  }

  /** What a score is made of: up to 100 points for the title, those of the format, 30 off for a version not
      asked for, 10 for an extended one not asked for, and those of the peer's speed and queue. */
  lemma ScoreExactly(offer: Offer, query: Bytes, format: Option<Bytes>)
    ensures Score(offer, Request(query, format)) ==
            100.0 * TitleScore(offer.file.filename, ParseQuery(query).1)
            + FormatScore(offer.file.filename, Bitrate(offer.file.attributes))
            + SpeedBonus(offer.result.avgSpeed) - QueuePenalty(offer.result.queueLength)
            - (if UnwantedVersion(offer.file.filename, query) then 30.0 else 0.0)
            + (if Contains(Lowercase(offer.file.filename), Ascii("extended"))
                  && !Contains(Lowercase(query), Ascii("extended")) then 10.0 else 0.0)
  {
    hide TitleScore, UnwantedVersion, FormatScore, SpeedBonus, QueuePenalty, Contains;
  }

  /** Exactly the eligible offers are ranked, each with its own score, above 50 and at most 165. */
  lemma RankedExactlyWhenEligible(results: seq<SearchResult>, request: Request, c: ScoredFile)
    ensures c in BestFiles(results, request) <==>
              && Title(request) != []
              && exists offer :: Offered(results, offer) && Eligible(offer, request)
                                 && c == Scored(offer, Score(offer, request))
    ensures c in BestFiles(results, request) ==> 50.0 < c.score <= 165.0 && c.slotFree
  {
    hide Eligible, Score, Title, Candidates, AllOffers, StableSort;
    var candidates := Candidates(AllOffers(results), request);
    OffersAreOffered(results);
    CandidateIsEligible(AllOffers(results), request, c);
    SortPermutes(candidates, Better);
    SameElements(StableSort(candidates, Better), candidates, c);
    if c in candidates {
      var offer :| offer in AllOffers(results) && Eligible(offer, request) && c == Scored(offer, Score(offer, request));
      EligibleMeans(offer, request);
    }
  }

  /** Every ranked file is offered as it is: name, size and bitrate are the file's, the rest is the peer's. */
  lemma RankedIsOffered(results: seq<SearchResult>, request: Request, c: ScoredFile)
    requires c in BestFiles(results, request)
    ensures exists result, file ::
              && result in results && file in result.files
              && c.username == result.username && c.peerIp == result.peerIp && c.peerPort == result.peerPort
              && c.slotFree == result.hasSlots && c.avgSpeed == result.avgSpeed && c.queueLength == result.queueLength
              && c.filename == file.filename && c.size == file.size && c.bitrate == Bitrate(file.attributes)
  {
    RankedExactlyWhenEligible(results, request, c);
    hide BestFiles, Eligible, Score, Title;
    var offer :| Offered(results, offer) && Eligible(offer, request) && c == Scored(offer, Score(offer, request));
    assert offer.result in results && offer.file in offer.result.files;
  }

  /** A wanted file of a free peer whose name is the title, up to case, marks and white space, is ranked. */
  lemma TitledFileIsRanked(results: seq<SearchResult>, request: Request, offer: Offer)
    requires Offered(results, offer) && offer.result.hasSlots && IsWanted(offer, request)
    requires ExtractTrackName(offer.file.filename) == NormalizeForMatching(Title(request)) != []
    ensures Scored(offer, Score(offer, request)) in BestFiles(results, request) && Score(offer, request) >= 65.0
  {
    TitleScoreMeaning(offer.file.filename, Title(request));
    ScoreBounds(offer, request);
    ExtrasBounds(offer, request);
    NothingNormalizes();
    hide BestFiles, Score, Title, IsWanted, NormalizeForMatching, ExtractTrackName, TitleScore, Extras, Scored, Offered;
    RankedExactlyWhenEligible(results, request, Scored(offer, Score(offer, request)));
  }

  lemma ExtrasBounds(offer: Offer, request: Request)
    ensures -35.0 <= Extras(offer, request) <= 65.0
  {
    hide UnwantedVersion, UnaskedExtended;
  }

  /** A query without a separator is a title: a wanted file of a free peer that is named like the query, up
      to case, marks and white space, is ranked. */
  lemma ExactNameIsRanked(results: seq<SearchResult>, query: Bytes, format: Option<Bytes>, offer: Offer)
    requires !Contains(query, Ascii(" - "))
    requires Offered(results, offer) && offer.result.hasSlots && IsWanted(offer, Request(query, format))
    requires ExtractTrackName(offer.file.filename) == NormalizeForMatching(query) != []
    ensures var request := Request(query, format);
            Scored(offer, Score(offer, request)) in BestFiles(results, request) && Score(offer, request) >= 65.0
  {
    NormalizeTrim(query);
    hide Ascii, Contains, BestFiles, Score, IsWanted, NormalizeForMatching, ExtractTrackName, Scored, Offered, Trim;
    TitledFileIsRanked(results, Request(query, format), offer);
  }

  /** Of a query "artist - title" it is enough that the file is named like the title. */
  lemma ExactTitleIsRanked(results: seq<SearchResult>, artist: Bytes, title: Bytes, format: Option<Bytes>, offer: Offer)
    requires !Contains(artist + [SPACE], Ascii(" - "))
    requires Offered(results, offer) && offer.result.hasSlots
    requires IsWanted(offer, Request(artist + Ascii(" - ") + title, format))
    requires ExtractTrackName(offer.file.filename) == NormalizeForMatching(title) != []
    ensures var request := Request(artist + Ascii(" - ") + title, format);
            Scored(offer, Score(offer, request)) in BestFiles(results, request) && Score(offer, request) >= 65.0
  {
    SeparatorFound(artist, title);
    NormalizeTrim(title);
    hide Ascii, Contains, BestFiles, Score, IsWanted, NormalizeForMatching, ExtractTrackName, Scored, Offered, Trim,
      Find;
    TitledFileIsRanked(results, Request(artist + Ascii(" - ") + title, format), offer);
  }

  lemma SameElements<T>(a: seq<T>, b: seq<T>, x: T)
    requires multiset(a) == multiset(b)
    ensures x in a <==> x in b
  {
    assert x in multiset(a) <==> x in a;
    assert x in multiset(b) <==> x in b;
  }

  lemma CandidateIsEligible(offers: seq<Offer>, request: Request, c: ScoredFile)
    ensures c in Candidates(offers, request) <==>
              exists offer :: offer in offers && Eligible(offer, request) && c == Scored(offer, Score(offer, request))
  {
    hide Eligible, Score, Scored;
    var eligible := Filter(offers, offer => Eligible(offer, request));
    var candidates := Candidates(offers, request);
    if c in candidates {
      var i :| 0 <= i < |candidates| && candidates[i] == c;
      assert eligible[i] in eligible;
    }
    if offer :| offer in offers && Eligible(offer, request) && c == Scored(offer, Score(offer, request)) {
      assert offer in eligible;
      var i :| 0 <= i < |eligible| && eligible[i] == offer;
      assert candidates[i] == c;
    }
  }

  lemma EligibleMeans(offer: Offer, request: Request)
    requires Eligible(offer, request)
    ensures 50.0 < Score(offer, request) <= 165.0 && offer.result.hasSlots
  {
    ScoreBounds(offer, request);
  }

  lemma OfferSnoc(result: SearchResult, files: seq<SearchFile>, file: SearchFile, request: Request)
    ensures Candidates(OffersOf(result, files + [file]), request)
         == Candidates(OffersOf(result, files), request)
            + (if Eligible(Offer(result, file), request)
               then [Scored(Offer(result, file), Score(Offer(result, file), request))] else [])
  {
    hide Eligible, Score, Scored;
    var offer := Offer(result, file);
    MapSnoc(files, file, f => Offer(result, f));
    FilterSnoc(OffersOf(result, files), offer, o => Eligible(o, request));
    if Eligible(offer, request) {
      MapSnoc(Filter(OffersOf(result, files), o => Eligible(o, request)), offer, o => Scored(o, Score(o, request)));
    }
  }

  /** The inner loop, over the files of one peer with free slots. */
  method CandidatesOfPeer(result: SearchResult, request: Request) returns (candidates: seq<ScoredFile>)
    requires result.hasSlots
    ensures candidates == Candidates(OffersOf(result, result.files), request)
  {
    hide Score, IsWanted, Scored;
    candidates := [];
    for j := 0 to |result.files|
      invariant candidates == Candidates(OffersOf(result, result.files[..j]), request)
    {
      var offer := Offer(result, result.files[j]);
      assert result.files[..j + 1] == result.files[..j] + [result.files[j]];
      OfferSnoc(result, result.files[..j], result.files[j], request);
      if !IsWanted(offer, request) {
        continue;
      }
      var score := Score(offer, request);
      if score > 50.0 {
        candidates := candidates + [Scored(offer, score)];
      }
    }
    assert result.files[..|result.files|] == result.files;
  }

  /** `find_best_files`. */
  method FindBestFiles(results: seq<SearchResult>, request: Request) returns (best: seq<ScoredFile>)
    ensures best == BestFiles(results, request)
  {
    hide Eligible, Score, Scored, Title, Filter, Map, StableSort;
    if Title(request) == [] {
      return [];
    }
    var candidates := [];
    for i := 0 to |results|
      invariant candidates == Candidates(AllOffers(results[..i]), request)
    {
      var result := results[i];
      assert results[..i + 1] == results[..i] + [result];
      AllOffersSnoc(results[..i], result);
      CandidatesConcat(AllOffers(results[..i]), OffersOf(result, result.files), request);
      if !result.hasSlots {
        NoSlotsNoCandidates(result, request);
      } else {
        var own := CandidatesOfPeer(result, request);
        candidates := candidates + own;
      }
    }
    assert results[..|results|] == results;
    best := StableSort(candidates, Better);
  }

  // ---------------------------------------------------------------- the best file

  function Megabytes(size: U64): real {
    size as real / 1048576.0
  }

  /** Without a ranked file: any audio file of the wanted format between 1 and 50 MB, of a peer with
      free slots if there is such a peer. */
  predicate FallbackOk(offer: Offer, someFree: bool, request: Request) {
    (offer.result.hasSlots || !someFree) && IsWanted(offer, request) && 1.0 <= Megabytes(offer.file.size) <= 50.0
  }

  predicate SomeoneFree(results: seq<SearchResult>) {
    exists result | result in results :: result.hasSlots
  }

  function Fallbacks(results: seq<SearchResult>, request: Request): seq<Offer> {
    var someFree := SomeoneFree(results);
    Filter(AllOffers(results), offer => FallbackOk(offer, someFree, request))
  }

  function BestFile(results: seq<SearchResult>, request: Request): Option<ScoredFile> {
    var best := BestFiles(results, request);
    if best != [] then Some(best[0])
    else
      var fallbacks := Fallbacks(results, request);
      if fallbacks == [] then None else Some(Scored(fallbacks[0], 0.0))
  }

  ghost predicate FirstAcceptable(offers: seq<Offer>, i: nat, someFree: bool, request: Request) {
    && i < |offers| && FallbackOk(offers[i], someFree, request)
    && forall j | 0 <= j < i :: !FallbackOk(offers[j], someFree, request)
  }

  /** Whenever some offer is ranked, the best file is a ranked one with the greatest score. */
  lemma BestFileIsGreatest(results: seq<SearchResult>, request: Request)
    requires BestFiles(results, request) != []
    ensures var (best, ranking) := (BestFile(results, request), BestFiles(results, request));
            best.Some? && best.value in ranking && forall c | c in ranking :: c.score <= best.value.score
  {
    RankingIsSortedPermutation(results, request);
    hide BestFiles, Candidates, ScoredAt;
  }

  /** Otherwise it is the first acceptable offer, with score 0, and there is none exactly when no
      offer is acceptable. */
  lemma FallbackIsFirstAcceptable(results: seq<SearchResult>, request: Request)
    requires BestFiles(results, request) == []
    ensures var (best, someFree) := (BestFile(results, request), SomeoneFree(results));
            && (best.None? <==> forall offer | Offered(results, offer) :: !FallbackOk(offer, someFree, request))
            && (best.Some? ==> exists i: nat :: FirstAcceptable(AllOffers(results), i, someFree, request)
                                                && best.value == Scored(AllOffers(results)[i], 0.0))
            && (best.Some? ==> 1048576 <= best.value.size <= 52428800 && (someFree ==> best.value.slotFree))
  {
    hide FallbackOk, BestFiles, AllOffers;
    OffersAreOffered(results);
    var (someFree, fallbacks) := (SomeoneFree(results), Fallbacks(results, request));
    if fallbacks != [] {
      var i := FilterFirst(AllOffers(results), offer => FallbackOk(offer, someFree, request));
      assert FirstAcceptable(AllOffers(results), i, someFree, request);
      AcceptableSize(AllOffers(results)[i], someFree, request);
    }
  }

  lemma AcceptableSize(offer: Offer, someFree: bool, request: Request)
    requires FallbackOk(offer, someFree, request)
    ensures 1048576 <= offer.file.size <= 52428800 && (someFree ==> offer.result.hasSlots)
  {
    hide IsWanted;
  }

  lemma NoResultsNoOffers()
    ensures AllOffers([]) == []
  {
  }

  lemma OneOffer(result: SearchResult, file: SearchFile)
    ensures OffersOf(result, [file]) == [Offer(result, file)]
  {
  }

  lemma {:induction false} OfferInOrder(results: seq<SearchResult>, i: nat, j: nat) returns (rest: seq<Offer>)
    requires i < |results| && j < |results[i].files|
    ensures AllOffers(results) ==
            AllOffers(results[..i]) + OffersOf(results[i], results[i].files[..j])
            + [Offer(results[i], results[i].files[j])] + rest
  {
    hide Map;
    if i == 0 {
      var files := results[0].files;
      rest := OffersOf(results[0], files[j + 1..]) + AllOffers(results[1..]);
      assert files == files[..j] + ([files[j]] + files[j + 1..]);
      MapConcat(files[..j], [files[j]] + files[j + 1..], file => Offer(results[0], file));
      MapConcat([files[j]], files[j + 1..], file => Offer(results[0], file));
      OneOffer(results[0], files[j]);
      NoResultsNoOffers();
      assert results[..0] == [];
    } else {
      rest := OfferInOrder(results[1..], i - 1, j);
      assert results[..i][1..] == results[1..][..i - 1];
    }
  }

  /** The inner loop of the fallback, over the files of one peer. */
  method FirstFallback(result: SearchResult, someFree: bool, request: Request) returns (j: nat, found: bool)
    ensures found ==> j < |result.files| && FallbackOk(Offer(result, result.files[j]), someFree, request)
    ensures found ==> Filter(OffersOf(result, result.files[..j]), offer => FallbackOk(offer, someFree, request)) == []
    ensures !found ==> Filter(OffersOf(result, result.files), offer => FallbackOk(offer, someFree, request)) == []
  {
    hide IsWanted;
    ghost var ok := offer => FallbackOk(offer, someFree, request);
    j, found := 0, false;
    if result.hasSlots || !someFree {
      while j < |result.files|
        invariant j <= |result.files|
        invariant forall k | 0 <= k < j :: !FallbackOk(Offer(result, result.files[k]), someFree, request)
      {
        var file := result.files[j];
        if IsWanted(Offer(result, file), request) && 1048576 <= file.size <= 52428800 {
          FilterNone(OffersOf(result, result.files[..j]), ok);
          return j, true;
        }
        j := j + 1;
      }
    }
    FilterNone(OffersOf(result, result.files), ok);
  }

  /** `find_best_file`. */
  method FindBestFile(results: seq<SearchResult>, request: Request) returns (best: Option<ScoredFile>)
    ensures best == BestFile(results, request)
  {
    hide FallbackOk, IsWanted, Scored, BestFiles, Filter, AllOffers, Map;
    var candidates := FindBestFiles(results, request);
    if candidates != [] {
      return Some(candidates[0]);
    }
    var someFree := SomeoneFree(results);
    ghost var ok := offer => FallbackOk(offer, someFree, request);
    FilterNone([], ok);
    NoResultsNoOffers();
    for i := 0 to |results|
      invariant Filter(AllOffers(results[..i]), ok) == []
    {
      assert results[..i + 1] == results[..i] + [results[i]];
      AllOffersSnoc(results[..i], results[i]);
      FilterConcat(AllOffers(results[..i]), OffersOf(results[i], results[i].files), ok);
      var j, found := FirstFallback(results[i], someFree, request);
      if found {
        ghost var rest := OfferInOrder(results, i, j);
        var offer := Offer(results[i], results[i].files[j]);
        ghost var before := AllOffers(results[..i]) + OffersOf(results[i], results[i].files[..j]);
        FilterConcat(AllOffers(results[..i]), OffersOf(results[i], results[i].files[..j]), ok);
        FilterSnoc(before, offer, ok);
        FilterConcat(before + [offer], rest, ok);
        return Some(Scored(offer, 0.0));
      }
    }
    assert results[..|results|] == results;
    best := None;
  }

  // ---------------------------------------------------------------- what a score above 50 means

  /** A score above 50 is said to mean a title score above one half. For an offer whose other points
      do not add up to more than nothing it does. */
  lemma FiftyMeansHalfTheTitle(offer: Offer, request: Request)
    requires Extras(offer, request) <= 0.0 && Score(offer, request) > 50.0
    ensures TitleScore(offer.file.filename, Title(request)) > 0.5
  {
    ScoreBounds(offer, request);
    hide TitleScore, Extras, Score;
  }

  /** Which ranked offers have a title score of one half at most: exactly the wanted ones of a free
      peer where neither name contains the other, at most five sixths of the words are shared, and
      60 times that share makes more than 50 points together with the other points. */
  lemma WeaklyTitledExactly(offer: Offer, request: Request)
    ensures var (a, b) := (ExtractTrackName(offer.file.filename), NormalizeForMatching(Title(request)));
            Eligible(offer, request) && TitleScore(offer.file.filename, Title(request)) <= 0.5
            <==>
            && offer.result.hasSlots && IsWanted(offer, request) && !Related(a, b)
            && 6.0 * Overlap(a, b) <= 5.0
            && 60.0 * Overlap(a, b) + Extras(offer, request) > 50.0
  {
    TitleScoreMeaning(offer.file.filename, Title(request));
    ScoreBounds(offer, request);
    hide TitleScore, Extras, Score, Related, Overlap, ExtractTrackName, NormalizeForMatching, Title, IsWanted;
  }

  const UNNAMED: Bytes := [0x2E, 0x66, 0x6C, 0x61, 0x63]

  lemma UnnamedIsLowercase()
    ensures UNNAMED == Ascii(".flac") && Lowercase(UNNAMED) == UNNAMED
  {
    hide Map;
    LowercaseKeeps(UNNAMED);
  }

  lemma NothingTrims()
    ensures TrimStart([], IsDigit) == [] == TrimStart([], IsPrefixMark) && Trim([]) == []
  {
  }

  lemma UnnamedHasNoTrackName()
    ensures ExtractTrackName(UNNAMED) == []
  {
    hide LastIndexOf, NormalizeForMatching, TrimStart, Trim;
    assert SLASH !in UNNAMED && BACKSLASH !in UNNAMED;
    assert Basename(UNNAMED) == UNNAMED;
    assert UNNAMED[0] == DOT && forall k | 0 < k < |UNNAMED| :: UNNAMED[k] != DOT;
    assert WithoutExtension(UNNAMED) == [];
    NothingTrims();
    NothingNormalizes();
  }

  lemma MissingByte(s: Bytes, t: Bytes, k: nat)
    requires k < |t| && t[k] !in s
    ensures !Contains(s, t)
  {
    forall i | 0 <= i <= |s|
      ensures !OccursAt(s, t, i)
    {
      if i + |t| <= |s| {
        assert s[i..i + |t|][k] == s[i + k];
      }
    }
  }

  lemma UnnamedHasNoIndicator()
    ensures forall indicator | indicator in REMIX_INDICATORS :: !Contains(UNNAMED, indicator)
    ensures !Contains(UNNAMED, Ascii("extended"))
  {
    hide Contains;
    MissingByte(UNNAMED, Ascii("remix"), 0);
    MissingByte(UNNAMED, Ascii("mix)"), 0);
    MissingByte(UNNAMED, Ascii("edit"), 0);
    MissingByte(UNNAMED, Ascii("version)"), 0);
    MissingByte(UNNAMED, Ascii("instrumental"), 0);
    MissingByte(UNNAMED, Ascii("acapella"), 3);
    MissingByte(UNNAMED, Ascii("a cappella"), 1);
    MissingByte(UNNAMED, Ascii("radio edit"), 0);
    MissingByte(UNNAMED, Ascii("live"), 1);
    MissingByte(UNNAMED, Ascii("demo"), 0);
    MissingByte(UNNAMED, Ascii("vip"), 0);
    MissingByte(UNNAMED, Ascii("bootleg"), 0);
    MissingByte(UNNAMED, Ascii("cover"), 1);
    MissingByte(UNNAMED, Ascii("acoustic"), 2);
    MissingByte(UNNAMED, Ascii("extended"), 0);
  }

  /** A file with nothing in front of its extension matches no title, yet a fast peer's is ranked. */
  lemma UnnamedFileIsRanked(result: SearchResult, file: SearchFile, request: Request)
    requires file.filename == UNNAMED && request.format.None? && Title(request) != []
    requires result.hasSlots && result.avgSpeed >= 1024 * 1024 && result.queueLength == 0
    ensures TitleScore(file.filename, Title(request)) == 0.0
    ensures Eligible(Offer(result, file), request)
  {
    UnnamedIsLowercase();
    UnnamedHasNoTrackName();
    UnnamedHasNoIndicator();
    hide Contains, Lowercase, ExtractTrackName, Title, NormalizeForMatching, Ascii;
    assert EndsWith(UNNAMED, UNNAMED);
    assert !UnwantedVersion(UNNAMED, request.query) && !UnaskedExtended(UNNAMED, request.query);
    assert FormatScore(UNNAMED, Bitrate(file.attributes)) == 30.0;
    assert SpeedBonus(result.avgSpeed) == 25.0 && QueuePenalty(result.queueLength) == 0.0;
  }
}
