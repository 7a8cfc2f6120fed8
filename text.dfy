/** The few java.lang.String operations the core relies on, restricted to
    ASCII: case-insensitive comparison, isBlank, trim and split on a single
    separator character. */
module Text {

  /** Character.isWhitespace on the ASCII range. */
  predicate IsWhitespace(c: char)
  {
    c == ' ' || c == '\t' || c == '\n' || c == '\U{B}' || c == '\U{C}' || c == '\r'
    || ('\U{1C}' <= c <= '\U{1F}')
  }

  /** String.isBlank: empty, or whitespace only. */
  predicate IsBlank(s: string): (b: bool)
    ensures b <==> !HasText(s)
    ensures s == [] ==> b
  {
    forall i :: 0 <= i < |s| ==> IsWhitespace(s[i])
  }

  /** Spring's StringUtils.hasText: some character is not whitespace. */
  predicate HasText(s: string): (b: bool)
    ensures b ==> s != []
  {
    exists i :: 0 <= i < |s| && !IsWhitespace(s[i])
  }

  function LowerChar(c: char): char
  {
    if 'A' <= c <= 'Z' then (c as int + 32) as char else c
  }

  function Lower(s: string): (r: string)
    ensures |r| == |s|
  {
    seq(|s|, i requires 0 <= i < |s| => LowerChar(s[i]))
  }

  /** String.equalsIgnoreCase with ASCII case folding. */
  predicate EqualsIgnoreCase(a: string, b: string): (r: bool)
    ensures a == b ==> r
    ensures r ==> |a| == |b|
  {
    Lower(a) == Lower(b)
  }

  /** String.trim strips every leading and trailing character at or below U+0020. */
  predicate Trimmable(c: char)
  {
    c <= ' '
  }

  function TrimStart(s: string): (r: string)
    ensures |r| <= |s|
  {
    if s != [] && Trimmable(s[0]) then TrimStart(s[1..]) else s
  }

  function TrimEnd(s: string): (r: string)
    ensures |r| <= |s|
  {
    if s != [] && Trimmable(s[|s| - 1]) then TrimEnd(s[..|s| - 1]) else s
  }

  function Trim(s: string): (r: string)
    ensures |r| <= |s|
    ensures s != [] && !Trimmable(s[0]) && !Trimmable(s[|s| - 1]) ==> r == s
  {
    TrimEnd(TrimStart(s))
  }

  /** Trimming the start drops a run of trimmable characters and stops at
      the first one that is not. */
  lemma {:induction false} TrimStartDrops(s: string)
    ensures var r := TrimStart(s);
      && r == s[|s| - |r|..]
      && (r == [] || !Trimmable(r[0]))
      && (forall k :: 0 <= k < |s| - |r| ==> Trimmable(s[k]))
    decreases |s|
  {
    if s != [] && Trimmable(s[0]) {
      TrimStartDrops(s[1..]);
    }
  }

  /** Trimming the end keeps a prefix and drops a run of trimmable
      characters after it. */
  lemma {:induction false} TrimEndKeeps(s: string)
    ensures var r := TrimEnd(s);
      && r == s[..|r|]
      && (r == [] || !Trimmable(r[|r| - 1]))
      && (forall k :: |r| <= k < |s| ==> Trimmable(s[k]))
    decreases |s|
  {
    if s != [] && Trimmable(s[|s| - 1]) {
      TrimEndKeeps(s[..|s| - 1]);
    }
  }

  /** A prefix r of a suffix t of s is the slice of s starting where t
      starts; what t leaves off at its end, s leaves off too. */
  lemma SuffixPrefixSlice(s: string, t: string, r: string)
    requires |t| <= |s| && t == s[|s| - |t|..]
    requires |r| <= |t| && r == t[..|r|]
    requires forall k :: |r| <= k < |t| ==> Trimmable(t[k])
    ensures var i := |s| - |t|; r == s[i..i + |r|]
    ensures forall k :: |s| - |t| + |r| <= k < |s| ==> Trimmable(s[k])
  {
    var i := |s| - |t|;
    assert s[i..i + |r|] == s[i..][..|r|];
    forall k | i + |r| <= k < |s| ensures Trimmable(s[k]) {
      assert s[k] == t[k - i];
    }
  }

  /** What trim promises: the result is a contiguous slice of the input that
      neither starts nor ends with a trimmable character, and everything cut
      off on either side is trimmable. */
  lemma TrimSlice(s: string)
    ensures var i, r := |s| - |TrimStart(s)|, Trim(s);
      0 <= i <= |s| - |r| && r == s[i..i + |r|]
        && (forall k :: 0 <= k < i ==> Trimmable(s[k]))
        && (forall k :: i + |r| <= k < |s| ==> Trimmable(s[k]))
    ensures Trim(s) == [] || (!Trimmable(Trim(s)[0]) && !Trimmable(Trim(s)[|Trim(s)| - 1]))
  {
    var t := TrimStart(s);
    TrimStartDrops(s);
    TrimEndKeeps(t);
    SuffixPrefixSlice(s, t, TrimEnd(t));
    assert TrimEnd(t) == [] || TrimEnd(t)[0] == t[0];
  }

  /** A string that neither starts nor ends with a trimmable character is
      its own trim. */
  lemma TrimOfTrimmed(s: string)
    requires s == [] || (!Trimmable(s[0]) && !Trimmable(s[|s| - 1]))
    ensures Trim(s) == s
  {
    assert TrimStart(s) == s;
  }

  /** A leading trimmable character makes no difference to trim. */
  lemma TrimLeading(c: char, s: string)
    requires Trimmable(c)
    ensures Trim([c] + s) == Trim(s)
  {
    assert ([c] + s)[1..] == s;
  }

  /** Trimming twice is trimming once. */
  lemma TrimIdempotent(s: string)
    ensures Trim(Trim(s)) == Trim(s)
  {
    TrimSlice(s);
  }

  /** Every ASCII whitespace character is at or below U+0020, so a string
      that is blank in this ASCII model trims to the empty string. */
  lemma {:induction false} BlankTrimsToEmpty(s: string)
    ensures IsBlank(s) ==> TrimStart(s) == [] && Trim(s) == []
    decreases |s|
  {
    if s != [] && IsBlank(s) {
      assert Trimmable(s[0]);
      assert IsBlank(s[1..]) by {
        forall i | 0 <= i < |s[1..]| ensures IsWhitespace(s[1..][i]) {
          assert s[1..][i] == s[i + 1];
        }
      }
      BlankTrimsToEmpty(s[1..]);
    }
  }

  /** Every piece between separators, empty ones included (no piece is dropped). */
  function Pieces(s: string, sep: char): (r: seq<string>)
    ensures |r| >= 1
    decreases |s|
  {
    if s == [] then [[]]
    else
      var rest := Pieces(s[1..], sep);
      if s[0] == sep then [[]] + rest
      else [[s[0]] + rest[0]] + rest[1..]
  }

  /** The pieces glued back together with the separator between them. */
  function Join(ps: seq<string>, sep: char): string
    requires |ps| >= 1
    decreases |ps|
  {
    if |ps| == 1 then ps[0] else ps[0] + [sep] + Join(ps[1..], sep)
  }

  /** No piece contains the separator. */
  lemma {:induction false} PiecesAreSeparatorFree(s: string, sep: char)
    ensures forall i :: 0 <= i < |Pieces(s, sep)| ==> sep !in Pieces(s, sep)[i]
    decreases |s|
  {
    if s != [] {
      PiecesAreSeparatorFree(s[1..], sep);
    }
  }

  /** Joining the pieces with the separator gives back the string. */
  lemma {:induction false} JoinPieces(s: string, sep: char)
    ensures Join(Pieces(s, sep), sep) == s
    decreases |s|
  {
    if s != [] {
      var rest := Pieces(s[1..], sep);
      JoinPieces(s[1..], sep);
      if s[0] == sep {
        assert ([[]] + rest)[1..] == rest;
      } else if |rest| > 1 {
        var ps := [[s[0]] + rest[0]] + rest[1..];
        assert ps[1..] == rest[1..];
        assert Join(ps, sep) == [s[0]] + (rest[0] + [sep] + Join(rest[1..], sep));
      }
    }
  }

  /** A string without the separator is a single piece. */
  lemma {:induction false} PiecesWithoutSeparator(s: string, sep: char)
    requires sep !in s
    ensures Pieces(s, sep) == [s]
    decreases |s|
  {
    if s != [] {
      PiecesWithoutSeparator(s[1..], sep);
      assert [s[0]] + s[1..] == s;
    }
  }

  /** The text before the first separator is the first piece; the pieces of
      the text after it follow. */
  lemma {:induction false} PiecesAfterFirstSeparator(a: string, b: string, sep: char)
    requires sep !in a
    ensures Pieces(a + [sep] + b, sep) == [a] + Pieces(b, sep)
    decreases |a|
  {
    var s := a + [sep] + b;
    if a == [] {
      assert s[1..] == b;
    } else {
      assert s[1..] == a[1..] + [sep] + b;
      PiecesAfterFirstSeparator(a[1..], b, sep);
      assert [a[0]] + a[1..] == a;
    }
  }

  /** The trailing empty pieces removed, as String.split with limit 0 does. */
  function DropTrailingEmpty(ps: seq<string>): (r: seq<string>)
    ensures |r| <= |ps|
    ensures r == [] || r[|r| - 1] != []
  {
    if ps != [] && ps[|ps| - 1] == [] then DropTrailingEmpty(ps[..|ps| - 1]) else ps
  }

  /** String.split(String.valueOf(sep)): a string without the separator comes
      back whole (so "" splits into [""]); otherwise the pieces, less the
      empty ones at the end. */
  function Split(s: string, sep: char): (r: seq<string>)
    ensures sep !in s ==> r == [s]
    ensures sep in s ==> r == [] || r[|r| - 1] != []
  {
    if sep !in s then [s] else DropTrailingEmpty(Pieces(s, sep))
  }

  /** Dropping trailing empty pieces keeps a prefix of the pieces. */
  lemma {:induction false} DropTrailingEmptyIsPrefix(ps: seq<string>)
    ensures DropTrailingEmpty(ps) == ps[..|DropTrailingEmpty(ps)|]
    decreases |ps|
  {
    if ps != [] && ps[|ps| - 1] == [] {
      DropTrailingEmptyIsPrefix(ps[..|ps| - 1]);
    }
  }

  /** No part of a split contains the separator. */
  lemma SplitIsSeparatorFree(s: string, sep: char)
    ensures forall i :: 0 <= i < |Split(s, sep)| ==> sep !in Split(s, sep)[i]
  {
    if sep in s {
      var ps := Pieces(s, sep);
      PiecesAreSeparatorFree(s, sep);
      DropTrailingEmptyIsPrefix(ps);
      var r := DropTrailingEmpty(ps);
      forall i | 0 <= i < |r| ensures sep !in r[i] {
        assert r[i] == ps[i];
      }
    }
  }

  /** Two separator-free parts joined by one separator split back into the
      two parts, provided the second is not empty. */
  lemma SplitTwo(a: string, b: string, sep: char)
    requires sep !in a && sep !in b && b != []
    ensures Split(a + [sep] + b, sep) == [a, b]
  {
    PiecesWithoutSeparator(b, sep);
    PiecesAfterFirstSeparator(a, b, sep);
    assert (a + [sep] + b)[|a|] == sep;
  }

  /** The last piece is not empty when the string does not end with the separator. */
  lemma {:induction false} LastPieceNonEmpty(s: string, sep: char)
    requires s != [] && s[|s| - 1] != sep
    ensures var ps := Pieces(s, sep); ps[|ps| - 1] != []
    decreases |s|
  {
    var rest := Pieces(s[1..], sep);
    if |s| > 1 {
      assert s[1..][|s[1..]| - 1] == s[|s| - 1];
      LastPieceNonEmpty(s[1..], sep);
    }
  }

  /** Nothing is lost by split when the string does not end with the separator:
      joining the pieces gives the string back. */
  lemma SplitJoin(s: string, sep: char)
    requires s == [] || s[|s| - 1] != sep
    ensures |Split(s, sep)| >= 1 && Join(Split(s, sep), sep) == s
  {
    if sep in s {
      LastPieceNonEmpty(s, sep);
      var ps := Pieces(s, sep);
      assert DropTrailingEmpty(ps) == ps;
      JoinPieces(s, sep);
    }
  }
}
