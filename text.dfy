/**
 * String operations the application relies on: lower-casing, substring search,
 * trimming, splitting on a separator and decimal rendering of counters.
 * Strings are `seq<char>`. Case mapping and white space are the ASCII ones.
 */
module Text {

  /** `c.toLowerCase()` restricted to the ASCII letters. */
  function LowerChar(c: char): char {
    if 'A' <= c <= 'Z' then (c as int + 32) as char else c
  }

  /** `s.toLowerCase()`: every character lowered, nothing else changed. */
  function Lower(s: string): (r: string)
    ensures |r| == |s|
    ensures forall i :: 0 <= i < |s| ==> r[i] == LowerChar(s[i])
    ensures forall i :: 0 <= i < |r| ==> !('A' <= r[i] <= 'Z')
  {
    if s == [] then [] else [LowerChar(s[0])] + Lower(s[1..])
  }

  /** Lowering twice is lowering once, so a lowered query compares like a lowered text. */
  lemma {:induction false} LowerIdempotent(s: string)
    ensures Lower(Lower(s)) == Lower(s)
  {
    if s != [] {
      LowerIdempotent(s[1..]);
      assert Lower(s)[1..] == Lower(s[1..]);
    }
  }

  /** `needle` occurs in `hay` at position `i`. */
  ghost predicate OccursAt(hay: string, needle: string, i: int) {
    0 <= i && i + |needle| <= |hay| && hay[i..i + |needle|] == needle
  }

  /** `hay.includes(needle)`: some window of `hay` equals `needle`. */
  function Contains(hay: string, needle: string): (r: bool)
    ensures r <==> exists i :: OccursAt(hay, needle, i)
    decreases |hay|
  {
    if |needle| <= |hay| && hay[..|needle|] == needle then
      assert OccursAt(hay, needle, 0);
      true
    else if |needle| > |hay| then
      assert forall i :: !OccursAt(hay, needle, i);
      false
    else
      ContainsStep(hay, needle);
      Contains(hay[1..], needle)
  }

  /** Past a failed comparison at position 0, an occurrence in `hay` is one in `hay[1..]`, one place later. */
  lemma ContainsStep(hay: string, needle: string)
    requires |needle| <= |hay| && hay[..|needle|] != needle
    ensures (exists i :: OccursAt(hay, needle, i)) <==> (exists j :: OccursAt(hay[1..], needle, j))
  {
    if i :| OccursAt(hay, needle, i) {
      assert i != 0;
      assert hay[1..][i - 1..i - 1 + |needle|] == hay[i..i + |needle|];
      assert OccursAt(hay[1..], needle, i - 1);
    }
    if j :| OccursAt(hay[1..], needle, j) {
      assert hay[1..][j..j + |needle|] == hay[j + 1..j + 1 + |needle|];
      assert OccursAt(hay, needle, j + 1);
    }
  }

  /** The characters `String.prototype.trim` removes, restricted to ASCII white space. */
  predicate IsSpace(c: char) {
    c == ' ' || c == '\t' || c == '\n' || c == '\r' || c == '\U{B}' || c == '\U{C}'
  }

  function TrimStart(s: string): (r: string)
    ensures |r| <= |s| && r == s[|s| - |r|..]
    ensures r != [] ==> !IsSpace(r[0])
    ensures forall i :: 0 <= i < |s| - |r| ==> IsSpace(s[i])
  {
    if s != [] && IsSpace(s[0]) then TrimStart(s[1..]) else s
  }

  function TrimEnd(s: string): (r: string)
    ensures |r| <= |s| && r == s[..|r|]
    ensures r != [] ==> !IsSpace(r[|r| - 1])
    ensures forall i :: |r| <= i < |s| ==> IsSpace(s[i])
  {
    if s != [] && IsSpace(s[|s| - 1]) then TrimEnd(s[..|s| - 1]) else s
  }

  /** `s.trim()`. */
  function Trim(s: string): string {
    TrimEnd(TrimStart(s))
  }

  /** Every character is white space. This is Bean Validation's notion of a blank string. */
  predicate IsBlank(s: string) {
    forall i :: 0 <= i < |s| ==> IsSpace(s[i])
  }

  /** A string trims to the empty string exactly when it is blank. */
  lemma TrimEmptyIffBlank(s: string)
    ensures Trim(s) == "" <==> IsBlank(s)
  {
    var t := TrimStart(s);
    if t != [] {
      assert s[|s| - |t|] == t[0];
    }
  }

  /** `s.split(sep)` for a one-character separator. */
  function Split(s: string, sep: char): (r: seq<string>)
    ensures |r| >= 1
    ensures forall k :: 0 <= k < |r| ==> sep !in r[k]
  {
    if s == [] then [""]
    else
      var rest := Split(s[1..], sep);
      if s[0] == sep then [""] + rest else [[s[0]] + rest[0]] + rest[1..]
  }

  /** `parts.join(sep)`. */
  function Join(parts: seq<string>, sep: char): string
    requires |parts| >= 1
  {
    if |parts| == 1 then parts[0] else parts[0] + [sep] + Join(parts[1..], sep)
  }

  /** Splitting loses nothing: joining the pieces with the separator gives the string back. */
  lemma {:induction false} SplitJoin(s: string, sep: char)
    ensures Join(Split(s, sep), sep) == s
  {
    if s != [] {
      var rest := Split(s[1..], sep);
      SplitJoin(s[1..], sep);
      if s[0] == sep {
        assert ([""] + rest)[1..] == rest;
      } else if |rest| > 1 {
        assert ([[s[0]] + rest[0]] + rest[1..])[1..] == rest[1..];
        assert Join(rest, sep) == rest[0] + [sep] + Join(rest[1..], sep);
      }
    }
  }

  /** The last piece of a split, as `s.split(sep).pop()` returns it. */
  function LastPiece(s: string, sep: char): string {
    var parts := Split(s, sep);
    parts[|parts| - 1]
  }

  /**
   * The last piece is the text after the last separator, or the whole string
   * when there is no separator: a suffix free of `sep`, preceded by `sep`
   * whenever it is shorter than the string.
   */
  lemma {:induction false} LastPieceIsTail(s: string, sep: char)
    ensures var r := LastPiece(s, sep);
      && sep !in r && |r| <= |s| && r == s[|s| - |r|..]
      && (|r| < |s| ==> s[|s| - |r| - 1] == sep)
  {
    if s != [] {
      var t := s[1..];
      var q := LastPiece(t, sep);
      LastPieceIsTail(t, sep);
      LastPieceCons(s, sep);
      if s[0] != sep && |Split(t, sep)| == 1 {
        LastPieceWhole(t, sep);
        assert [s[0]] + t == s;
      } else {
        if s[0] != sep && |q| == |t| {
          assert q == t;
          SplitWithoutSeparator(t, sep);
        }
        assert t[|t| - |q|..] == s[|s| - |q|..];
        if |q| < |t| {
          assert s[|s| - |q| - 1] == t[|t| - |q| - 1];
        }
      }
    }
  }

  /**
   * The first character joins the first piece of the rest; so the last piece
   * grows by it only when the rest is one piece and the character is not the separator.
   */
  lemma LastPieceCons(s: string, sep: char)
    requires s != []
    ensures s[0] != sep && |Split(s[1..], sep)| == 1 ==> LastPiece(s, sep) == [s[0]] + LastPiece(s[1..], sep)
    ensures !(s[0] != sep && |Split(s[1..], sep)| == 1) ==> LastPiece(s, sep) == LastPiece(s[1..], sep)
  {
  }

  /** A string that splits into one piece is its own last piece. */
  lemma LastPieceWhole(s: string, sep: char)
    requires |Split(s, sep)| == 1
    ensures LastPiece(s, sep) == s
  {
    SplitJoin(s, sep);
  }

  /** A string that ends with the separator has an empty last piece. */
  lemma LastPieceAfterTrailingSeparator(s: string, sep: char)
    requires s != [] && s[|s| - 1] == sep
    ensures LastPiece(s, sep) == ""
  {
    LastPieceIsTail(s, sep);
  }

  /** Joining separator-free pieces and splitting again gives the pieces back. */
  lemma {:induction false} JoinSplit(parts: seq<string>, sep: char)
    requires |parts| >= 1
    requires forall k :: 0 <= k < |parts| ==> sep !in parts[k]
    ensures Split(Join(parts, sep), sep) == parts
  {
    if |parts| == 1 {
      SplitWithoutSeparator(parts[0], sep);
    } else {
      JoinSplit(parts[1..], sep);
      SplitAfterWord(parts[0], sep, Join(parts[1..], sep));
      assert [parts[0]] + parts[1..] == parts;
    }
  }

  /** A separator-free word followed by the separator becomes the first piece. */
  lemma {:induction false} SplitAfterWord(w: string, sep: char, rest: string)
    requires sep !in w
    ensures Split(w + [sep] + rest, sep) == [w] + Split(rest, sep)
  {
    if w == [] {
      assert w + [sep] + rest == [sep] + rest;
      assert ([sep] + rest)[1..] == rest;
    } else {
      SplitAfterWord(w[1..], sep, rest);
      var s := w + [sep] + rest;
      assert s[0] == w[0] && s[1..] == w[1..] + [sep] + rest;
      assert [w[0]] + w[1..] == w;
    }
  }

  /** A string without the separator splits into itself alone. */
  lemma {:induction false} SplitWithoutSeparator(s: string, sep: char)
    requires sep !in s
    ensures Split(s, sep) == [s]
  {
    if s != [] {
      SplitWithoutSeparator(s[1..], sep);
      assert s[0] != sep;
      assert [s[0]] + s[1..] == s;
    }
  }

  function DigitChar(d: nat): (c: char)
    requires d < 10
    ensures '0' <= c <= '9'
  {
    "0123456789"[d]
  }

  /** Decimal rendering of a natural number, as a template literal prints it. */
  function NatToString(n: nat): (r: string)
    ensures |r| >= 1
    ensures forall i :: 0 <= i < |r| ==> '0' <= r[i] <= '9'
    ensures n >= 10 ==> r[0] != '0'
  {
    if n < 10 then [DigitChar(n)] else NatToString(n / 10) + [DigitChar(n % 10)]
  }
}
