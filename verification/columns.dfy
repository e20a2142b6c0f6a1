/** Finding the table columns that hold the length, the half-height and the
    half-width, by looking for key words in each header name. */
module ColumnMatch {
  import opened Wrappers

  /** The three dimensions the converter needs a column for. */
  datatype Key = LengthKey | HeightHalfKey | WidthHalfKey

  /** Lower-case for ASCII letters; every other character is kept. */
  function LowerChar(c: char): char {
    if 'A' <= c <= 'Z' then (c as int - 'A' as int + 'a' as int) as char else c
  }

  /** Python's `lower()` restricted to ASCII: no upper-case ASCII letter
      is left, and every character is either kept or is the upper-case
      letter it replaces, shifted to lower case. */
  function Lower(s: string): (r: string)
    ensures |r| == |s|
    ensures forall i :: 0 <= i < |r| ==> !('A' <= r[i] <= 'Z')
    ensures forall i :: 0 <= i < |r| ==>
      r[i] == s[i] || ('A' <= s[i] <= 'Z' && r[i] as int == s[i] as int + 32)
  {
    seq(|s|, i requires 0 <= i < |s| => LowerChar(s[i]))
  }

  /** The characters Python's argument-less str.strip() removes. */
  predicate IsSpace(c: char) {
    || c == ' ' || '\t' <= c <= '\r' || '\U{1C}' <= c <= '\U{1F}'
    || c == '\U{85}' || c == '\U{A0}' || c == '\U{1680}' || '\U{2000}' <= c <= '\U{200A}'
    || c == '\U{2028}' || c == '\U{2029}' || c == '\U{202F}' || c == '\U{205F}' || c == '\U{3000}'
  }

  /** Removing leading white space: the result is the suffix of `s` that
      starts at its first non-space character (empty if there is none). */
  function StripLeft(s: string): (r: string)
    ensures |r| <= |s| && r == s[|s| - |r|..]
    ensures forall i :: 0 <= i < |s| - |r| ==> IsSpace(s[i])
    ensures |r| > 0 ==> !IsSpace(r[0])
    decreases |s|
  {
    if |s| > 0 && IsSpace(s[0]) then StripLeft(s[1..]) else s
  }

  /** Removing trailing white space: the result is the prefix of `s` that
      ends at its last non-space character (empty if there is none). */
  function StripRight(s: string): (r: string)
    ensures |r| <= |s| && r == s[..|r|]
    ensures forall i :: |r| <= i < |s| ==> IsSpace(s[i])
    ensures |r| > 0 ==> !IsSpace(r[|r| - 1])
    decreases |s|
  {
    if |s| > 0 && IsSpace(s[|s| - 1]) then StripRight(s[..|s| - 1]) else s
  }

  /** `r` is the piece of `s` starting at `lo`, and everything of `s`
      before and after that piece is white space. */
  predicate TrimmedAt(s: string, r: string, lo: nat) {
    && lo + |r| <= |s|
    && (forall j :: 0 <= j < |r| ==> r[j] == s[lo + j])
    && (forall i :: 0 <= i < lo ==> IsSpace(s[i]))
    && (forall i :: lo + |r| <= i < |s| ==> IsSpace(s[i]))
  }

  /** The header name as the matcher reads it, `name.lower().strip()`: the
      lower-cased name with the white space at both of its ends removed, so
      a piece with no upper-case ASCII letter and no white space at either
      end, of which only white space was cut away. */
  function Normalize(name: string): (r: string)
    ensures |r| <= |name|
    ensures TrimmedAt(Lower(name), r, |Lower(name)| - |StripLeft(Lower(name))|)
    ensures forall i :: 0 <= i < |r| ==> !('A' <= r[i] <= 'Z')
    ensures |r| > 0 ==> !IsSpace(r[0]) && !IsSpace(r[|r| - 1])
  {
    StripKeepsNoUpper(Lower(name));
    StripRight(StripLeft(Lower(name)))
  }

  /** Stripping both ends keeps a piece of the string and cuts away only
      white space: the leading run before the piece, the trailing run after. */
  lemma StripTrimmed(l: string)
    ensures TrimmedAt(l, StripRight(StripLeft(l)), |l| - |StripLeft(l)|)
  {
    StripTrimmedLeft(l);
    StripTrimmedRight(l);
  }

  /** The stripped string sits at the end of the leading white space. */
  lemma StripTrimmedLeft(l: string)
    ensures var lo, r := |l| - |StripLeft(l)|, StripRight(StripLeft(l));
      && lo + |r| <= |l|
      && (forall j :: 0 <= j < |r| ==> r[j] == l[lo + j])
      && forall i :: 0 <= i < lo ==> IsSpace(l[i])
  {
    var left := StripLeft(l);
    var r := StripRight(left);
    var lo := |l| - |left|;
    forall j | 0 <= j < |r|
      ensures r[j] == l[lo + j]
    {
      assert r[j] == left[j];
    }
  }

  /** Everything after the stripped string is white space. */
  lemma StripTrimmedRight(l: string)
    ensures var lo, r := |l| - |StripLeft(l)|, StripRight(StripLeft(l));
      forall i :: lo + |r| <= i < |l| ==> IsSpace(l[i])
  {
    var left := StripLeft(l);
    var r := StripRight(left);
    var lo := |l| - |left|;
    forall i | lo + |r| <= i < |l|
      ensures IsSpace(l[i])
    {
      assert l[i] == left[i - lo];
    }
  }

  /** Stripping only cuts white space away at the two ends, so it adds no
      upper-case letter and leaves no white space at either end. */
  lemma StripKeepsNoUpper(l: string)
    requires forall i :: 0 <= i < |l| ==> !('A' <= l[i] <= 'Z')
    ensures var r := StripRight(StripLeft(l));
      && |r| <= |l|
      && TrimmedAt(l, r, |l| - |StripLeft(l)|)
      && (forall i :: 0 <= i < |r| ==> !('A' <= r[i] <= 'Z'))
      && (|r| > 0 ==> !IsSpace(r[0]) && !IsSpace(r[|r| - 1]))
  {
    StripTrimmed(l);
    StripNoUpper(l);
    StripEndsNotSpace(l);
  }

  /** Stripping adds no upper-case letter. */
  lemma StripNoUpper(l: string)
    requires forall i :: 0 <= i < |l| ==> !('A' <= l[i] <= 'Z')
    ensures var r := StripRight(StripLeft(l));
      forall i :: 0 <= i < |r| ==> !('A' <= r[i] <= 'Z')
  {
    StripTrimmedLeft(l);
  }

  /** Neither end of a stripped string is white space. */
  lemma StripEndsNotSpace(l: string)
    ensures var r := StripRight(StripLeft(l));
      |r| > 0 ==> !IsSpace(r[0]) && !IsSpace(r[|r| - 1])
  {
    var left := StripLeft(l);
    var r := StripRight(left);
    if |r| > 0 {
      assert r[0] == left[0];
    }
  }

  /** `sub` occurs in `s` starting at position i. */
  predicate OccursAt(s: string, sub: string, i: nat) {
    i + |sub| <= |s| && s[i..i + |sub|] == sub
  }

  /** Python's `sub in s` for strings. */
  predicate Contains(s: string, sub: string) {
    exists i: nat :: i <= |s| && OccursAt(s, sub, i)
  }

  /** What a normalized header name is taken for, tested in the matcher's
      order: "length" first, then "height" with "/2", then "width" with "/2".
      A name is taken for some key exactly when it contains "length", or
      "/2" together with "height" or "width"; a name taken for the
      half-height never contains "length", and one taken for the half-width
      contains neither "length" nor "height". */
  function ClassifyNormalized(n: string): (r: Option<Key>)
    ensures r.Some? <==>
      Contains(n, "length") || (Contains(n, "/2") && (Contains(n, "height") || Contains(n, "width")))
    ensures r == Some(LengthKey) <==> Contains(n, "length")
    ensures r == Some(HeightHalfKey) ==>
      !Contains(n, "length") && Contains(n, "height") && Contains(n, "/2")
    ensures r == Some(WidthHalfKey) ==>
      !Contains(n, "length") && !Contains(n, "height") && Contains(n, "width") && Contains(n, "/2")
  {
    if Contains(n, "length") then Some(LengthKey)
    else if Contains(n, "height") && Contains(n, "/2") then Some(HeightHalfKey)
    else if Contains(n, "width") && Contains(n, "/2") then Some(WidthHalfKey)
    else None
  }

  /** The key a header name is taken for. The strip in the normalization is
      immaterial: the name is classified the same whether or not white
      space around it is removed, because no key word contains white space. */
  function Classify(name: string): (r: Option<Key>)
    ensures r == ClassifyNormalized(Lower(name))
  {
    StripKeepsKey(Lower(name));
    ClassifyNormalized(Normalize(name))
  }

  /** The matcher's state: the column chosen so far for each key. */
  datatype Choice = Choice(length: Option<string>, heightHalf: Option<string>, widthHalf: Option<string>) {

    function Get(k: Key): Option<string> {
      match k
      case LengthKey => length
      case HeightHalfKey => heightHalf
      case WidthHalfKey => widthHalf
    }

    function Set(k: Key, name: string): Choice {
      match k
      case LengthKey => this.(length := Some(name))
      case HeightHalfKey => this.(heightHalf := Some(name))
      case WidthHalfKey => this.(widthHalf := Some(name))
    }
  }

  /** The matcher's loop over the header, in column order: each column that
      `classify` assigns a key overwrites that key's choice. */
  function Scan(names: seq<string>, classify: string -> Option<Key>): Choice
    decreases |names|
  {
    if |names| == 0 then Choice(None, None, None)
    else
      var c := Scan(names[..|names| - 1], classify);
      var name := names[|names| - 1];
      match classify(name)
      case None => c
      case Some(k) => c.Set(k, name)
  }

  /** The three columns found, once every key has one. */
  datatype ColumnMap = ColumnMap(length: string, heightHalf: string, widthHalf: string) {

    function Get(k: Key): string {
      match k
      case LengthKey => length
      case HeightHalfKey => heightHalf
      case WidthHalfKey => widthHalf
    }
  }

  /** Some column of the header is assigned key k. */
  ghost predicate Matched(names: seq<string>, classify: string -> Option<Key>, k: Key) {
    exists i :: 0 <= i < |names| && classify(names[i]) == Some(k)
  }

  /** Column i is assigned k and no later column is. */
  ghost predicate LastMatchAt(names: seq<string>, classify: string -> Option<Key>, k: Key, i: int) {
    && 0 <= i < |names|
    && classify(names[i]) == Some(k)
    && forall j :: i < j < |names| ==> classify(names[j]) != Some(k)
  }

  /** `name` is the header of the last column assigned k. */
  ghost predicate IsLastMatch(names: seq<string>, classify: string -> Option<Key>, k: Key, name: string) {
    exists i :: LastMatchAt(names, classify, k, i) && names[i] == name
  }

  /** After the loop, a key has no choice exactly when no column is assigned
      it, and otherwise holds the last column that is. */
  lemma {:induction false} ScanChoosesLastMatch(names: seq<string>, classify: string -> Option<Key>, k: Key)
    ensures Scan(names, classify).Get(k).None? <==> !Matched(names, classify, k)
    ensures Scan(names, classify).Get(k).Some? ==>
      IsLastMatch(names, classify, k, Scan(names, classify).Get(k).value)
    decreases |names|
  {
    if |names| > 0 {
      var n := |names| - 1;
      var init := names[..n];
      var last := names[n];
      ScanChoosesLastMatch(init, classify, k);
      var c0 := Scan(init, classify);
      if classify(last) == Some(k) {
        assert LastMatchAt(names, classify, k, n);
      } else if c0.Get(k).Some? {
        var i :| LastMatchAt(init, classify, k, i) && init[i] == c0.Get(k).value;
        assert names[i] == init[i];
        forall j | i < j < |names| ensures classify(names[j]) != Some(k) {
          if j < n {
            assert names[j] == init[j];
          }
        }
        assert LastMatchAt(names, classify, k, i);
      } else {
        assert !Matched(names, classify, k);
      }
    }
  }

  /** The previous lemma for all three keys at once. */
  lemma ScanChoosesLastMatchAll(names: seq<string>, classify: string -> Option<Key>)
    ensures forall k :: Scan(names, classify).Get(k).None? <==> !Matched(names, classify, k)
    ensures forall k :: Scan(names, classify).Get(k).Some? ==>
      IsLastMatch(names, classify, k, Scan(names, classify).Get(k).value)
  {
    forall k {
      ScanChoosesLastMatch(names, classify, k);
    }
  }

  /** The column mapping step: every key maps to the last column whose
      normalized name classifies as it, and the run gives up (None) exactly
      when some key has no such column. */
  function MatchColumns(names: seq<string>): (r: Option<ColumnMap>)
    ensures r.Some? <==> forall k :: Matched(names, Classify, k)
    ensures r.Some? ==> forall k :: IsLastMatch(names, Classify, k, r.value.Get(k))
  {
    MatchWith(names, Classify)
  }

  /** The mapping step for an arbitrary classifier of header names. */
  function MatchWith(names: seq<string>, classify: string -> Option<Key>): (r: Option<ColumnMap>)
    ensures r.Some? <==> forall k :: Matched(names, classify, k)
    ensures r.Some? ==> forall k :: IsLastMatch(names, classify, k, r.value.Get(k))
  {
    var c := Scan(names, classify);
    ScanChoosesLastMatchAll(names, classify);
    if c.Get(LengthKey).None? || c.Get(HeightHalfKey).None? || c.Get(WidthHalfKey).None? then None
    else
      var m := ColumnMap(c.length.value, c.heightHalf.value, c.widthHalf.value);
      assert forall k :: c.Get(k) == Some(m.Get(k));
      Some(m)
  }

  /** Precedence of the tests: the length column's name contains "length";
      the half-height column's name contains "height" and "/2" but never
      "length"; the half-width column's name contains "width" and "/2" but
      never "length", and never both "height" and "/2". */
  lemma MatchPrecedence(names: seq<string>)
    requires MatchColumns(names).Some?
    ensures var m := MatchColumns(names).value;
      && Contains(Normalize(m.length), "length")
      && !Contains(Normalize(m.heightHalf), "length")
      && Contains(Normalize(m.heightHalf), "height") && Contains(Normalize(m.heightHalf), "/2")
      && !Contains(Normalize(m.widthHalf), "length")
      && !(Contains(Normalize(m.widthHalf), "height") && Contains(Normalize(m.widthHalf), "/2"))
      && Contains(Normalize(m.widthHalf), "width") && Contains(Normalize(m.widthHalf), "/2")
  {
    var m := MatchColumns(names).value;
    assert IsLastMatch(names, Classify, LengthKey, m.Get(LengthKey));
    assert IsLastMatch(names, Classify, HeightHalfKey, m.Get(HeightHalfKey));
    assert IsLastMatch(names, Classify, WidthHalfKey, m.Get(WidthHalfKey));
  }

  /** A word without white space occurs in s exactly when it occurs in s
      with its first character removed, if that character is white space. */
  lemma DropLeadingSpace(s: string, w: string)
    requires |s| > 0 && IsSpace(s[0])
    requires |w| > 0 && forall j :: 0 <= j < |w| ==> !IsSpace(w[j])
    ensures Contains(s[1..], w) <==> Contains(s, w)
  {
    if Contains(s[1..], w) {
      var i: nat :| i <= |s[1..]| && OccursAt(s[1..], w, i);
      assert s[i + 1 .. i + 1 + |w|] == s[1..][i .. i + |w|];
      assert OccursAt(s, w, i + 1);
    }
    if Contains(s, w) {
      var i: nat :| i <= |s| && OccursAt(s, w, i);
      assert s[1..][i - 1 .. i - 1 + |w|] == s[i .. i + |w|];
      assert OccursAt(s[1..], w, i - 1);
    }
  }

  /** The same, for a trailing white-space character. */
  lemma DropTrailingSpace(s: string, w: string)
    requires |s| > 0 && IsSpace(s[|s| - 1])
    requires |w| > 0 && forall j :: 0 <= j < |w| ==> !IsSpace(w[j])
    ensures Contains(s[..|s| - 1], w) <==> Contains(s, w)
  {
    var s' := s[..|s| - 1];
    if Contains(s', w) {
      var i: nat :| i <= |s'| && OccursAt(s', w, i);
      assert s[i .. i + |w|] == s'[i .. i + |w|];
      assert OccursAt(s, w, i);
    }
    if Contains(s, w) {
      var i: nat :| i <= |s| && OccursAt(s, w, i);
      assert s'[i .. i + |w|] == s[i .. i + |w|];
      assert OccursAt(s', w, i);
    }
  }

  /** Stripping white space never changes whether a word without white
      space occurs in a name. */
  lemma {:induction false} StripKeepsWords(s: string, w: string)
    requires |w| > 0 && forall j :: 0 <= j < |w| ==> !IsSpace(w[j])
    ensures Contains(StripRight(StripLeft(s)), w) <==> Contains(s, w)
  {
    StripLeftKeepsWords(s, w);
    StripRightKeepsWords(StripLeft(s), w);
  }

  lemma {:induction false} StripLeftKeepsWords(s: string, w: string)
    requires |w| > 0 && forall j :: 0 <= j < |w| ==> !IsSpace(w[j])
    ensures Contains(StripLeft(s), w) <==> Contains(s, w)
    decreases |s|
  {
    if |s| > 0 && IsSpace(s[0]) {
      StripLeftKeepsWords(s[1..], w);
      DropLeadingSpace(s, w);
    }
  }

  lemma {:induction false} StripRightKeepsWords(s: string, w: string)
    requires |w| > 0 && forall j :: 0 <= j < |w| ==> !IsSpace(w[j])
    ensures Contains(StripRight(s), w) <==> Contains(s, w)
    decreases |s|
  {
    if |s| > 0 && IsSpace(s[|s| - 1]) {
      StripRightKeepsWords(s[..|s| - 1], w);
      DropTrailingSpace(s, w);
    }
  }

  /** None of the four key words contains white space. */
  lemma KeyWordsHaveNoSpace()
    ensures forall j :: 0 <= j < |"length"| ==> !IsSpace("length"[j])
    ensures forall j :: 0 <= j < |"height"| ==> !IsSpace("height"[j])
    ensures forall j :: 0 <= j < |"width"| ==> !IsSpace("width"[j])
    ensures forall j :: 0 <= j < |"/2"| ==> !IsSpace("/2"[j])
  {
  }

  /** Stripping a string never changes the key it is taken for. */
  lemma StripKeepsKey(s: string)
    ensures ClassifyNormalized(StripRight(StripLeft(s))) == ClassifyNormalized(s)
  {
    KeyWordsHaveNoSpace();
    StripKeepsWords(s, "length");
    StripKeepsWords(s, "height");
    StripKeepsWords(s, "width");
    StripKeepsWords(s, "/2");
  }
}
