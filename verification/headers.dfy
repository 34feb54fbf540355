/**
 Header canonicalisation for the daily chart CSVs: the lookup key of a
 column name (`normalize_col`) and the alias table that renames recognised
 columns to the canonical `Position`, `Track`, `Artist`, `Streams`, `URL`
 and the temporary `URI`.
 */
module Headers {
  import opened Wrappers
  import opened Text

  /** A character of the regular-expression class `[_\s]`. */
  predicate IsSep(c: char) { c == '_' || IsSpace(c) }

  /** Drops the run of separators at the front of `s`. */
  function SkipSeps(s: string): (r: string)
    ensures |r| <= |s| && r == s[|s| - |r|..]
    ensures |r| > 0 ==> !IsSep(r[0])
    ensures forall i :: 0 <= i < |s| - |r| ==> IsSep(s[i])
  {
    if |s| > 0 && IsSep(s[0]) then
      var r := SkipSeps(s[1..]);
      assert s[1..][|s| - 1 - |r|..] == s[|s| - |r|..];
      assert forall i :: 1 <= i < |s| - |r| ==> s[i] == s[1..][i - 1];
      r
    else s
  }

  /** The letters and other non-separator characters of `s`, in order. */
  function Content(s: string): string {
    if |s| == 0 then "" else (if IsSep(s[0]) then "" else [s[0]]) + Content(s[1..])
  }

  /** `re.sub(r"[_\s]+", " ", s)`: each maximal run of separators becomes one space. */
  function Collapse(s: string): (r: string)
    ensures |s| > 0 ==> |r| > 0 && (if IsSep(s[0]) then r[0] == ' ' else r[0] == s[0])
    ensures |s| == 0 ==> r == ""
    decreases |s|
  {
    if |s| == 0 then ""
    else if IsSep(s[0]) then " " + Collapse(SkipSeps(s[1..]))
    else [s[0]] + Collapse(s[1..])
  }

  /**
   The shape of a collapsed key: no underscore, the only separator is a
   plain space, and no two separators in a row.
   */
  ghost predicate CollapsedForm(r: string) {
    && (forall i :: 0 <= i < |r| ==> r[i] != '_' && (IsSep(r[i]) ==> r[i] == ' '))
    && (forall i :: 0 <= i < |r| - 1 ==> !(IsSep(r[i]) && IsSep(r[i + 1])))
  }

  /** `Collapse` produces the collapsed form and invents no character other than a space. */
  lemma {:induction false} CollapseShape(s: string)
    ensures CollapsedForm(Collapse(s))
    ensures forall c :: c in Collapse(s) && c != ' ' ==> c in s
    decreases |s|
  {
    if |s| > 0 {
      var t := if IsSep(s[0]) then SkipSeps(s[1..]) else s[1..];
      var x := if IsSep(s[0]) then ' ' else s[0];
      CollapseShape(t);
      var r', r := Collapse(t), Collapse(s);
      assert r == [x] + r';
      ConsCollapsed(x, r');
      forall c | c in r && c != ' ' ensures c in s {
        if c != x {
          assert c in r';
          assert c in t;
        }
      }
    }
  }

  /** Putting a non-underscore character before a collapsed text keeps it collapsed unless two separators meet. */
  lemma ConsCollapsed(x: char, r': string)
    requires CollapsedForm(r')
    requires x != '_' && (IsSep(x) ==> x == ' ')
    requires |r'| > 0 && IsSep(x) ==> !IsSep(r'[0])
    ensures CollapsedForm([x] + r')
  {
    var r := [x] + r';
    forall i | 0 <= i < |r| ensures r[i] != '_' && (IsSep(r[i]) ==> r[i] == ' ') {
      if i > 0 {
        assert r[i] == r'[i - 1];
      }
    }
    forall i | 0 <= i < |r| - 1 ensures !(IsSep(r[i]) && IsSep(r[i + 1])) {
      if i > 0 {
        assert r[i] == r'[i - 1] && r[i + 1] == r'[i];
      }
    }
  }

  /** Collapsing keeps every non-separator character, in order. */
  lemma {:induction false} CollapseContent(s: string)
    ensures Content(Collapse(s)) == Content(s)
    decreases |s|
  {
    if |s| > 0 {
      if IsSep(s[0]) {
        SkipSepsContent(s[1..]);
        CollapseContent(SkipSeps(s[1..]));
        assert (" " + Collapse(SkipSeps(s[1..])))[1..] == Collapse(SkipSeps(s[1..]));
      } else {
        CollapseContent(s[1..]);
        assert ([s[0]] + Collapse(s[1..]))[1..] == Collapse(s[1..]);
      }
    }
  }

  lemma {:induction false} SkipSepsContent(s: string)
    ensures Content(SkipSeps(s)) == Content(s)
  {
    if |s| > 0 && IsSep(s[0]) {
      SkipSepsContent(s[1..]);
    }
  }

  /** `normalize_col`: strip, lower-case, then collapse separator runs. */
  function NormalizeCol(c: string): string {
    Collapse(Lower(Strip(c)))
  }

  /**
   A lookup key has no underscore and no upper-case ASCII letter, its only
   whitespace is the plain space, and no two whitespace characters are adjacent.
   */
  lemma NormalizeColShape(c: string)
    ensures var r := NormalizeCol(c);
      && (forall i :: 0 <= i < |r| ==> r[i] != '_' && !IsUpper(r[i]))
      && (forall i :: 0 <= i < |r| - 1 ==> !(IsSpace(r[i]) && IsSpace(r[i + 1])))
      && (forall i :: 0 <= i < |r| && IsSpace(r[i]) ==> r[i] == ' ')
  {
    var l := Lower(Strip(c));
    CollapseShape(l);
    var r := Collapse(l);
    assert forall i :: 0 <= i < |r| ==> !IsUpper(r[i]) by {
      forall i | 0 <= i < |r| ensures !IsUpper(r[i]) {
        if r[i] != ' ' {
          assert r[i] in r;
          var j :| 0 <= j < |l| && l[j] == r[i];
        }
      }
    }
    assert forall i :: 0 <= i < |r| && IsSpace(r[i]) ==> IsSep(r[i]);
  }

  /** Text already in collapsed form is left unchanged by `Collapse`. */
  lemma {:induction false} CollapseIdentity(s: string)
    requires forall i :: 0 <= i < |s| && IsSep(s[i]) ==> s[i] == ' '
    requires forall i :: 0 <= i < |s| - 1 ==> !(IsSep(s[i]) && IsSep(s[i + 1]))
    ensures Collapse(s) == s
  {
    if |s| > 0 {
      if IsSep(s[0]) {
        assert SkipSeps(s[1..]) == s[1..];
      }
      CollapseIdentity(s[1..]);
    }
  }

  /**
   `normalize_col` is idempotent on the keys it produces exactly when the
   key does not start or end with a space; `"_track"` shows the exception.
   */
  lemma NormalizeColIdempotent(c: string)
    ensures var k := NormalizeCol(c);
      NormalizeCol(k) == k <==> |k| == 0 || (k[0] != ' ' && k[|k| - 1] != ' ')
  {
    var k := NormalizeCol(c);
    if |k| == 0 || (k[0] != ' ' && k[|k| - 1] != ' ') {
      NormalizeColShape(c);
      StripIdentity(k);
      LowerIdentity(k);
      CollapseIdentity(k);
    } else {
      StripShortens(k);
      CollapseNoLonger(Lower(Strip(k)));
    }
  }

  /** Collapsing never lengthens text. */
  lemma {:induction false} CollapseNoLonger(s: string)
    ensures |Collapse(s)| <= |s|
    decreases |s|
  {
    if |s| > 0 {
      if IsSep(s[0]) {
        CollapseNoLonger(SkipSeps(s[1..]));
      } else {
        CollapseNoLonger(s[1..]);
      }
    }
  }

  /** No separator in `w`. */
  predicate IsWord(w: string) { forall i :: 0 <= i < |w| ==> !IsSep(w[i]) }

  /** A separator-free word passes through `Collapse` unchanged. */
  lemma {:induction false} CollapseWord(w: string, rest: string)
    requires IsWord(w)
    ensures Collapse(w + rest) == w + Collapse(rest)
  {
    var s := w + rest;
    if |w| > 0 {
      assert s[0] == w[0] && !IsSep(s[0]);
      assert s[1..] == w[1..] + rest;
      assert Collapse(s) == [w[0]] + Collapse(s[1..]);
      assert IsWord(w[1..]) by {
        assert forall i :: 0 <= i < |w| - 1 ==> w[1..][i] == w[i + 1];
      }
      CollapseWord(w[1..], rest);
      assert w == [w[0]] + w[1..];
    } else {
      assert s == rest;
    }
  }

  /** A non-empty separator run followed by a word becomes one space. */
  lemma CollapseRun(run: string, rest: string)
    requires |run| > 0 && forall i :: 0 <= i < |run| ==> IsSep(run[i])
    requires |rest| > 0 ==> !IsSep(rest[0])
    ensures Collapse(run + rest) == " " + Collapse(rest)
  {
    SkipRun(run[1..], rest);
    assert (run + rest)[1..] == run[1..] + rest;
  }

  lemma {:induction false} SkipRun(run: string, rest: string)
    requires forall i :: 0 <= i < |run| ==> IsSep(run[i])
    requires |rest| > 0 ==> !IsSep(rest[0])
    ensures SkipSeps(run + rest) == rest
  {
    if |run| > 0 {
      assert (run + rest)[1..] == run[1..] + rest;
      SkipRun(run[1..], rest);
    } else {
      assert run + rest == rest;
    }
  }

  /** Two words joined by any separator run collapse to the words joined by one space. */
  lemma TwoWords(w1: string, run: string, w2: string)
    requires IsWord(w1) && IsWord(w2) && |w2| > 0
    requires |run| > 0 && forall i :: 0 <= i < |run| ==> IsSep(run[i])
    ensures Collapse(w1 + run + w2) == w1 + " " + w2
  {
    CollapseWord(w2, "");
    assert w2 + "" == w2;
    CollapseRun(run, w2);
    assert w1 + run + w2 == w1 + (run + w2);
    CollapseWord(w1, run + w2);
  }

  /**
   Normalising is not idempotent: `"_track"` is keyed as `" track"`, whose
   own key is `"track"`.
   */
  lemma NormalizeColNotIdempotent(s: string)
    requires s == "_track"
    ensures NormalizeCol(s) == " track"
    ensures NormalizeCol(NormalizeCol(s)) == "track"
  {
    LeadingUnderscoreKey(s);
    SpaceTrackKey(NormalizeCol(s));
  }

  lemma LeadingUnderscoreKey(s: string)
    requires s == "_track"
    ensures NormalizeCol(s) == " track"
  {
    assert Lower(Strip(s)) == s by {
      StripIdentity(s);
    }
    UnderscoreTrack(s);
  }

  lemma UnderscoreTrack(s: string)
    requires s == "_track"
    ensures Collapse(s) == " track"
  {
    var t := s[1..];
    assert s == [s[0]] + t;
    AlnumWord(t);
    CollapseRun([s[0]], t);
    CollapseWord(t, "");
    assert t + "" == t;
  }

  lemma SpaceTrackKey(s: string)
    requires s == " track"
    ensures NormalizeCol(s) == "track"
  {
    var t := s[1..];
    AlnumWord(t);
    StripPadded([s[0]], t, []);
    assert s == [s[0]] + t + [];
    LowerIdentity(t);
    CollapseWord(t, "");
    assert t + "" == t;
  }

  /** Spelling variants of the same header share one key. */
  lemma NormalizeColExamples(a: string, b: string, c: string)
    requires a == "Track_Name" && b == "track  name" && c == " TRACK NAME "
    ensures NormalizeCol(a) == "track name"
    ensures NormalizeCol(b) == "track name"
    ensures NormalizeCol(c) == "track name"
  {
    UnderscoreExample(a);
    DoubleSpaceExample(b);
    PaddedExample(c);
  }

  lemma UnderscoreExample(a: string)
    requires a == "Track_Name"
    ensures NormalizeCol(a) == "track name"
  {
    var w1, w2 := "track", "name";
    AlnumWord(w1);
    AlnumWord(w2);
    StripIdentity(a);
    assert Lower(a) == w1 + "_" + w2;
    TwoWords(w1, "_", w2);
  }

  lemma DoubleSpaceExample(b: string)
    requires b == "track  name"
    ensures NormalizeCol(b) == "track name"
  {
    var w1, w2 := "track", "name";
    AlnumWord(w1);
    AlnumWord(w2);
    StripIdentity(b);
    LowerIdentity(b);
    assert b == w1 + "  " + w2;
    TwoWords(w1, "  ", w2);
  }

  lemma PaddedExample(c: string)
    requires c == " TRACK NAME "
    ensures NormalizeCol(c) == "track name"
  {
    var body := c[1..|c| - 1];
    assert c == [c[0]] + body + [c[|c| - 1]];
    StripPadded([c[0]], body, [c[|c| - 1]]);
    UpperWordsKey(body);
  }

  lemma UpperWordsKey(body: string)
    requires body == "TRACK NAME"
    ensures Collapse(Lower(body)) == "track name"
  {
    var w1, w2 := "track", "name";
    AlnumWord(w1);
    AlnumWord(w2);
    assert Lower(body) == w1 + " " + w2;
    TwoWords(w1, " ", w2);
  }

  /** Letters and digits are not separators and not whitespace. */
  lemma AlnumWord(w: string)
    requires forall i :: 0 <= i < |w| ==> IsAlnum(w[i])
    ensures IsWord(w)
    ensures forall i :: 0 <= i < |w| ==> !IsSpace(w[i]) && !IsUpper(LowerChar(w[i]))
  {
  }

  /** Stripping removes exactly the whitespace padding around a word. */
  lemma StripPadded(w1: string, body: string, w2: string)
    requires forall i :: 0 <= i < |w1| ==> IsSpace(w1[i])
    requires forall i :: 0 <= i < |w2| ==> IsSpace(w2[i])
    requires |body| > 0 && !IsSpace(body[0]) && !IsSpace(body[|body| - 1])
    ensures Strip(w1 + body + w2) == body
  {
    var s := w1 + body + w2;
    LeadingRun(w1, body + w2);
    assert s == w1 + (body + w2);
    var t := s[|w1|..];
    assert t == body + w2;
    TrailingRun(body, w2);
  }

  lemma {:induction false} LeadingRun(w: string, rest: string)
    requires forall i :: 0 <= i < |w| ==> IsSpace(w[i])
    requires |rest| > 0 && !IsSpace(rest[0])
    ensures LeadingSpaces(w + rest) == |w|
  {
    if |w| > 0 {
      assert (w + rest)[1..] == w[1..] + rest;
      LeadingRun(w[1..], rest);
    } else {
      assert w + rest == rest;
    }
  }

  lemma {:induction false} TrailingRun(rest: string, w: string)
    requires forall i :: 0 <= i < |w| ==> IsSpace(w[i])
    requires |rest| > 0 && !IsSpace(rest[|rest| - 1])
    ensures TrailingSpaces(rest + w) == |w|
  {
    if |w| > 0 {
      assert (rest + w)[..|rest + w| - 1] == rest + w[..|w| - 1];
      TrailingRun(rest, w[..|w| - 1]);
    } else {
      assert rest + w == rest;
    }
  }

  // ---------------------------------------------------------------------
  // The alias table
  // ---------------------------------------------------------------------

  /** A canonical column, plus the temporary `URI` column. */
  datatype Field = Position | Track | Artist | Streams | Url | Uri

  /** The lookup keys that rename a column to `f`. */
  function Aliases(f: Field): seq<string> {
    match f
    case Position => ["position", "rank", "chart position"]
    case Track => ["track name", "track", "trackname", "song", "title"]
    case Artist => ["artist", "artist name", "artist names", "artistname", "artistnames"]
    case Streams => ["streams", "stream"]
    case Url => ["url", "track url", "spotify url"]
    case Uri => ["uri"]
  }

  /** The column name a recognised column is renamed to. */
  function FieldName(f: Field): string {
    match f
    case Position => "Position"
    case Track => "Track"
    case Artist => "Artist"
    case Streams => "Streams"
    case Url => "URL"
    case Uri => "URI"
  }

  /** No lookup key belongs to two alias lists. */
  lemma AliasesDisjoint(f: Field, g: Field, k: string)
    requires f != g
    ensures !(k in Aliases(f) && k in Aliases(g))
  {
  }

  /** The `if`/`elif` chain over the alias lists, first match wins. */
  function Canonicalize(key: string): Option<Field> {
    if key in Aliases(Position) then Some(Position)
    else if key in Aliases(Track) then Some(Track)
    else if key in Aliases(Artist) then Some(Artist)
    else if key in Aliases(Streams) then Some(Streams)
    else if key in Aliases(Url) then Some(Url)
    else if key in Aliases(Uri) then Some(Uri)
    else None
  }

  /** A key is renamed to `f` exactly when it is one of `f`'s aliases. */
  lemma CanonicalizeExact(key: string, f: Field)
    ensures Canonicalize(key) == Some(f) <==> key in Aliases(f)
  {
    if key in Aliases(f) {
      forall g | g != f ensures key !in Aliases(g) {
        AliasesDisjoint(f, g, key);
      }
    }
  }

  /** The field a raw header maps to: trim, build the lookup key, consult the table. */
  function HeaderField(h: string): Option<Field> {
    Canonicalize(NormalizeCol(Strip(h)))
  }

  /** The column name after trimming and `df.rename(columns=rename_map)`. */
  function RenameHeader(h: string): (r: string)
    ensures forall f :: NormalizeCol(Strip(h)) in Aliases(f) ==> r == FieldName(f)
    ensures (forall f :: NormalizeCol(Strip(h)) !in Aliases(f)) ==> r == Strip(h)
  {
    var key := NormalizeCol(Strip(h));
    assert forall f :: Canonicalize(key) == Some(f) <==> key in Aliases(f) by {
      forall f ensures Canonicalize(key) == Some(f) <==> key in Aliases(f) {
        CanonicalizeExact(key, f);
      }
    }
    match HeaderField(h)
    case Some(f) => FieldName(f)
    case None => Strip(h)
  }

  /** The key of a single alphanumeric word is its lower-case spelling. */
  lemma AlnumKey(n: string)
    requires |n| > 0 && forall i :: 0 <= i < |n| ==> IsAlnum(n[i])
    ensures NormalizeCol(n) == Lower(n)
  {
    StripIdentity(n);
    AlnumWord(n);
    AlnumWord(Lower(n));
    CollapseWord(Lower(n), "");
    assert Lower(n) + "" == Lower(n);
  }

  /** Canonical names map to themselves, so renaming an already-canonical header changes nothing. */
  lemma {:induction false} CanonicalNamesFixed(f: Field, n: string)
    requires n == FieldName(f)
    ensures HeaderField(n) == Some(f)
    ensures RenameHeader(n) == n
  {
    CanonicalNameSpelling(f, n);
    StripIdentity(n);
    AlnumKey(n);
    CanonicalizeExact(Lower(n), f);
  }

  lemma CanonicalNameSpelling(f: Field, n: string)
    requires n == FieldName(f)
    ensures |n| > 0 && forall i :: 0 <= i < |n| ==> IsAlnum(n[i])
    ensures Lower(n) in Aliases(f)
  {
    match f {
      case Position => assert Lower(n) == "position";
      case Track => assert Lower(n) == "track";
      case Artist => assert Lower(n) == "artist";
      case Streams => assert Lower(n) == "streams";
      case Url => assert Lower(n) == "url";
      case Uri => assert Lower(n) == "uri";
    }
  }
}
