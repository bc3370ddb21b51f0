/**
 * The Python `str` operations the engine is built from, with Python's semantics:
 * `split` on a one-character separator, `split(sep, 1)`, `join` and `lstrip`.
 */
module Text {

  /** Python's `s.split(sep)` for a one-character `sep`: the pieces between separators, empty ones included. */
  function Split(s: string, sep: char): (parts: seq<string>)
    ensures |parts| >= 1
    ensures forall i :: 0 <= i < |parts| ==> sep !in parts[i]
    decreases |s|
  {
    if s == [] then [""]
    else
      var rest := Split(s[1..], sep);
      if s[0] == sep then [""] + rest
      else [[s[0]] + rest[0]] + rest[1..]
  }

  /** Python's `sep.join(parts)`. */
  function Join(parts: seq<string>, sep: char): string
    decreases |parts|
  {
    if parts == [] then ""
    else if |parts| == 1 then parts[0]
    else parts[0] + [sep] + Join(parts[1..], sep)
  }

  /** Joining the pieces of a split gives the string back. */
  lemma {:induction false} JoinSplit(s: string, sep: char)
    ensures Join(Split(s, sep), sep) == s
    decreases |s|
  {
    if s != [] {
      JoinSplit(s[1..], sep);
      var rest := Split(s[1..], sep);
      if s[0] == sep {
        assert ([""] + rest)[1..] == rest;
        assert s == [s[0]] + s[1..];
      } else {
        var parts := [[s[0]] + rest[0]] + rest[1..];
        if |rest| == 1 {
          assert s == [s[0]] + s[1..];
        } else {
          assert parts[1..] == rest[1..];
          assert Join(rest, sep) == rest[0] + [sep] + Join(rest[1..], sep);
          assert s == [s[0]] + s[1..];
        }
      }
    }
  }

  /** Joining a non-empty list with one more piece puts a separator before that piece. */
  lemma {:induction false} JoinSnoc(parts: seq<string>, last: string, sep: char)
    requires parts != []
    ensures Join(parts + [last], sep) == Join(parts, sep) + [sep] + last
    decreases |parts|
  {
    if |parts| == 1 {
      assert (parts + [last])[1..] == [last];
    } else {
      JoinSnoc(parts[1..], last, sep);
      assert (parts + [last])[1..] == parts[1..] + [last];
    }
  }

  /** Joining two non-empty lists puts one separator between their joins. */
  lemma {:induction false} JoinAppend(xs: seq<string>, ys: seq<string>, sep: char)
    requires xs != [] && ys != []
    ensures Join(xs + ys, sep) == Join(xs, sep) + [sep] + Join(ys, sep)
    decreases |xs|
  {
    if |xs| == 1 {
      assert (xs + ys)[1..] == ys;
    } else {
      JoinAppend(xs[1..], ys, sep);
      assert (xs + ys)[1..] == xs[1..] + ys;
    }
  }

  /** A string with no separator is a single piece. */
  lemma {:induction false} SplitWithoutSep(s: string, sep: char)
    requires sep !in s
    ensures Split(s, sep) == [s]
    decreases |s|
  {
    if s != [] {
      assert sep !in s[1..] by {
        forall x | x in s[1..] ensures x in s { }
      }
      SplitWithoutSep(s[1..], sep);
      assert s == [s[0]] + s[1..];
    }
  }

  /** Splitting at the first separator peels off the text before it as the first piece. */
  lemma {:induction false} SplitAtFirst(s: string, t: string, sep: char)
    requires sep !in s
    ensures Split(s + [sep] + t, sep) == [s] + Split(t, sep)
    decreases |s|
  {
    if s == [] {
      assert ([sep] + t)[1..] == t;
    } else {
      assert sep !in s[1..] by {
        forall x | x in s[1..] ensures x in s { }
      }
      SplitAtFirst(s[1..], t, sep);
      assert (s + [sep] + t)[1..] == s[1..] + [sep] + t;
      assert s == [s[0]] + s[1..];
    }
  }

  /**
   * The index of the first `c` in `s`, or `|s|` when there is none
   * (what `s.split(c, 1)` splits at).
   */
  function IndexOf(s: string, c: char): (i: nat)
    ensures i <= |s|
    ensures c !in s[..i]
    ensures i < |s| <==> c in s
    ensures i < |s| ==> s[i] == c
    decreases |s|
  {
    if s == [] then 0
    else if s[0] == c then 0
    else
      var j := IndexOf(s[1..], c);
      assert s[1..][..j] == s[1..j + 1];
      assert s[..j + 1] == [s[0]] + s[1..][..j];
      1 + j
  }

  /** Python's `s.split(c, 1)`: one piece when `c` does not occur, else the text before and after its first occurrence. */
  function SplitOnce(s: string, c: char): (parts: seq<string>)
    ensures |parts| == 2 <==> c in s
    ensures |parts| == 1 <==> c !in s
    ensures |parts| == 2 ==> c !in parts[0] && parts[0] + [c] + parts[1] == s
    ensures |parts| == 1 ==> parts[0] == s
  {
    var i := IndexOf(s, c);
    if i < |s| then
      assert s == s[..i] + [s[i]] + s[i + 1..];
      [s[..i], s[i + 1..]]
    else [s]
  }

  /** The first occurrence of `c` is where `s.split(c, 1)` cuts. */
  lemma SplitOnceAtFirst(s: string, t: string, c: char)
    requires c !in s
    ensures SplitOnce(s + [c] + t, c) == [s, t]
  {
    var x := s + [c] + t;
    var i := IndexOf(x, c);
    assert x[|s|] == c;
    assert x[..i] == s && x[i + 1..] == t;
  }

  /** Whether `needle` occurs in `haystack` starting at index `i`. */
  predicate OccursAt(haystack: string, needle: string, i: nat) {
    i + |needle| <= |haystack| && haystack[i..i + |needle|] == needle
  }

  /** Python's `s.lstrip(chars)`: drops every leading character that belongs to `chars` (a set of characters, not a prefix). */
  function LStrip(s: string, chars: set<char>): (r: string)
    ensures |r| <= |s| && r == s[|s| - |r|..]
    ensures forall i :: 0 <= i < |s| - |r| ==> s[i] in chars
    ensures r == [] || r[0] !in chars
    decreases |s|
  {
    if s != [] && s[0] in chars then LStrip(s[1..], chars) else s
  }

  /** The non-empty pieces of `parts`, in order (what `for part in parts: if part: ...` visits). */
  function NonEmpty(parts: seq<string>): (r: seq<string>)
    ensures |r| <= |parts|
    ensures forall i :: 0 <= i < |r| ==> r[i] != ""
    ensures forall x :: x in r <==> x in parts && x != ""
    decreases |parts|
  {
    if parts == [] then []
    else
      var init := NonEmpty(parts[..|parts| - 1]);
      assert parts == parts[..|parts| - 1] + [parts[|parts| - 1]];
      if parts[|parts| - 1] == "" then init else init + [parts[|parts| - 1]]
  }

  /** The filter works piece by piece: the non-empty pieces of `a + b` are those of `a`, then those of `b`. */
  lemma {:induction false} NonEmptyAppend(a: seq<string>, b: seq<string>)
    ensures NonEmpty(a + b) == NonEmpty(a) + NonEmpty(b)
    decreases |b|
  {
    if b == [] {
      assert a + b == a;
    } else {
      var b' := b[..|b| - 1];
      assert (a + b)[..|a + b| - 1] == a + b';
      assert (a + b)[|a + b| - 1] == b[|b| - 1];
      NonEmptyAppend(a, b');
    }
  }

  /** With no empty piece to drop, the filter keeps the pieces as they are. */
  lemma {:induction false} NonEmptyKeepsAll(parts: seq<string>)
    requires forall i :: 0 <= i < |parts| ==> parts[i] != ""
    ensures NonEmpty(parts) == parts
    decreases |parts|
  {
    if parts != [] {
      NonEmptyKeepsAll(parts[..|parts| - 1]);
      assert parts == parts[..|parts| - 1] + [parts[|parts| - 1]];
    }
  }

  /** The string has no empty piece between separators: it is non-empty, neither starts nor ends with `sep`, and never holds `sep` twice in a row. */
  predicate NoEmptyPiece(s: string, sep: char) {
    s != [] && s[0] != sep && s[|s| - 1] != sep
    && forall i :: 0 <= i < |s| - 1 ==> !(s[i] == sep && s[i + 1] == sep)
  }

  /** Such a string splits into non-empty pieces only. */
  lemma {:induction false} SplitPiecesNonEmpty(s: string, sep: char)
    requires NoEmptyPiece(s, sep)
    ensures forall i :: 0 <= i < |Split(s, sep)| ==> Split(s, sep)[i] != ""
    decreases |s|
  {
    var rest := Split(s[1..], sep);
    assert Split(s, sep) == [[s[0]] + rest[0]] + rest[1..];
    if |s| > 1 {
      if s[1] == sep {
        assert s[1..][0] == sep;
        assert rest == [""] + Split(s[2..], sep);
        assert rest[1..] == Split(s[2..], sep);
        assert NoEmptyPiece(s[2..], sep) by {
          var t := s[2..];
          forall i | 0 <= i < |t| - 1
            ensures !(t[i] == sep && t[i + 1] == sep)
          {
            assert t[i] == s[i + 2] && t[i + 1] == s[i + 3];
          }
        }
        SplitPiecesNonEmpty(s[2..], sep);
      } else {
        assert NoEmptyPiece(s[1..], sep) by {
          var t := s[1..];
          forall i | 0 <= i < |t| - 1
            ensures !(t[i] == sep && t[i + 1] == sep)
          {
            assert t[i] == s[i + 1] && t[i + 1] == s[i + 2];
          }
        }
        SplitPiecesNonEmpty(s[1..], sep);
      }
    } else {
      assert s[1..] == [];
    }
  }

  /** All pieces concatenated with no separator. */
  function Concat(parts: seq<string>): string
    decreases |parts|
  {
    if parts == [] then "" else parts[0] + Concat(parts[1..])
  }

  /** `s` with every occurrence of `c` removed. */
  function Without(s: string, c: char): (r: string)
    ensures c !in r
    decreases |s|
  {
    if s == [] then "" else (if s[0] == c then "" else [s[0]]) + Without(s[1..], c)
  }

  lemma {:induction false} ConcatSnoc(parts: seq<string>, last: string)
    ensures Concat(parts + [last]) == Concat(parts) + last
    decreases |parts|
  {
    if parts != [] {
      ConcatSnoc(parts[1..], last);
      assert (parts + [last])[1..] == parts[1..] + [last];
    }
  }

  /** Dropping empty pieces loses no text. */
  lemma {:induction false} ConcatNonEmpty(parts: seq<string>)
    ensures Concat(NonEmpty(parts)) == Concat(parts)
    decreases |parts|
  {
    if parts != [] {
      var init := parts[..|parts| - 1];
      ConcatNonEmpty(init);
      assert parts == init + [parts[|parts| - 1]];
      ConcatSnoc(init, parts[|parts| - 1]);
      ConcatSnoc(NonEmpty(init), parts[|parts| - 1]);
    }
  }

  /** Splitting loses exactly the separators. */
  lemma {:induction false} ConcatSplit(s: string, sep: char)
    ensures Concat(Split(s, sep)) == Without(s, sep)
    decreases |s|
  {
    if s != [] {
      ConcatSplit(s[1..], sep);
      var rest := Split(s[1..], sep);
      if s[0] == sep {
        assert ([""] + rest)[1..] == rest;
      } else {
        var parts := [[s[0]] + rest[0]] + rest[1..];
        assert parts[1..] == rest[1..];
        assert Concat(rest) == rest[0] + Concat(rest[1..]);
      }
    }
  }

  /** When the first piece is non-empty, it is also the first non-empty piece. */
  lemma {:induction false} NonEmptyHead(parts: seq<string>)
    requires parts != [] && parts[0] != ""
    ensures NonEmpty(parts) != [] && NonEmpty(parts)[0] == parts[0]
    decreases |parts|
  {
    if |parts| > 1 {
      var init := parts[..|parts| - 1];
      assert init[0] == parts[0];
      NonEmptyHead(init);
    }
  }
}
