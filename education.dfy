/**
 * The year badge of the education grid: "2025" for an entry whose year text mentions
 * "Completed", otherwise the first piece of the year text split at the en dash.
 * The JavaScript string operations it uses (`includes`, `split`) are written out here.
 */
module Education {

  /** The en dash U+2013 that separates the years of a period. */
  const Dash: char := '\U{2013}'

  /** JavaScript's `s.includes(sub)`: does `sub` occur in `s` at some position? */
  function Includes(s: string, sub: string): bool
    decreases |s|
  {
    if |sub| > |s| then false
    else if s[..|sub|] == sub then true
    else Includes(s[1..], sub)
  }

  /** `sub` occurs in `s` starting at position `i`. */
  predicate OccursAt(s: string, sub: string, i: int)
  {
    0 <= i <= |s| - |sub| && s[i..i + |sub|] == sub
  }

  /** `Includes` agrees with the direct definition: `sub` occurs in `s` at some position. */
  lemma {:induction false} IncludesIff(s: string, sub: string)
    ensures Includes(s, sub) <==> exists i :: OccursAt(s, sub, i)
    decreases |s|
  {
    if |sub| > |s| {
    } else if s[..|sub|] == sub {
      assert OccursAt(s, sub, 0);
    } else {
      IncludesIff(s[1..], sub);
      if Includes(s[1..], sub) {
        var i :| OccursAt(s[1..], sub, i);
        SliceOfTail(s, i + 1, |sub|);
        assert OccursAt(s, sub, i + 1);
      } else {
        forall i | OccursAt(s, sub, i)
          ensures false
        {
          if i > 0 {
            SliceOfTail(s, i, |sub|);
            assert OccursAt(s[1..], sub, i - 1);
          }
        }
      }
    }
  }

  /** Slicing the tail of `s` one position earlier gives the same characters. */
  lemma SliceOfTail(s: string, i: nat, n: nat)
    requires 1 <= i && i + n <= |s|
    ensures s[1..][i - 1..i - 1 + n] == s[i..i + n]
  {
  }

  /** A text that lacks the first character of `sub` does not include `sub`. */
  lemma {:induction false} MissingFirstChar(s: string, sub: string)
    requires sub != [] && sub[0] !in s
    ensures !Includes(s, sub)
    decreases |s|
  {
    if |sub| <= |s| {
      assert s[..|sub|][0] == s[0];
      assert s[0] in s;
      assert forall c :: c in s[1..] ==> c in s;
      MissingFirstChar(s[1..], sub);
    }
  }

  /** JavaScript's `s.split(sep)` for a one-character separator: there is always a first piece. */
  function Split(s: string, sep: char): (pieces: seq<string>)
    ensures |pieces| >= 1
  {
    if s == [] then [""]
    else
      var rest := Split(s[1..], sep);
      if s[0] == sep then [""] + rest
      else [[s[0]] + rest[0]] + rest[1..]
  }

  /** JavaScript's `pieces.join(sep)`. */
  function Join(pieces: seq<string>, sep: char): string
  {
    if |pieces| == 0 then ""
    else if |pieces| == 1 then pieces[0]
    else pieces[0] + [sep] + Join(pieces[1..], sep)
  }

  predicate Free(p: string, sep: char)
  {
    sep !in p
  }

  /** Joining the pieces with the separator gives back the original text. */
  lemma {:induction false} JoinSplit(s: string, sep: char)
    ensures Join(Split(s, sep), sep) == s
  {
    if s != [] {
      JoinSplit(s[1..], sep);
      var rest := Split(s[1..], sep);
      if s[0] == sep {
        assert Join([""] + rest, sep) == "" + [sep] + Join(rest, sep);
        assert s == [s[0]] + s[1..];
      } else if |rest| == 1 {
        assert s == [s[0]] + s[1..];
      } else {
        var pieces := [[s[0]] + rest[0]] + rest[1..];
        assert pieces[1..] == rest[1..];
        assert Join(rest, sep) == rest[0] + [sep] + Join(rest[1..], sep);
        assert s == [s[0]] + s[1..];
      }
    }
  }

  /** No piece contains the separator. */
  lemma {:induction false} SplitPiecesFree(s: string, sep: char)
    ensures forall i :: 0 <= i < |Split(s, sep)| ==> Free(Split(s, sep)[i], sep)
  {
    if s != [] {
      SplitPiecesFree(s[1..], sep);
      var rest := Split(s[1..], sep);
      if s[0] != sep {
        var pieces := Split(s, sep);
        forall i | 0 <= i < |pieces|
          ensures Free(pieces[i], sep)
        {
          if i == 0 {
            assert pieces[0] == [s[0]] + rest[0];
            assert Free(rest[0], sep);
          } else {
            assert pieces[i] == rest[i];
          }
        }
      }
    }
  }

  /** Splitting a join of separator-free pieces gives the pieces back. */
  lemma {:induction false} SplitJoin(pieces: seq<string>, sep: char)
    requires |pieces| >= 1
    requires forall i :: 0 <= i < |pieces| ==> Free(pieces[i], sep)
    ensures Split(Join(pieces, sep), sep) == pieces
    decreases |Join(pieces, sep)|
  {
    var s := Join(pieces, sep);
    if |pieces| == 1 {
      SplitFreeWhole(pieces[0], sep);
    } else if pieces[0] == "" {
      assert s == [sep] + Join(pieces[1..], sep);
      assert s[1..] == Join(pieces[1..], sep);
      SplitJoin(pieces[1..], sep);
      assert Split(s, sep) == [""] + pieces[1..];
    } else {
      var p0 := pieces[0];
      var tail := [p0[1..]] + pieces[1..];
      assert tail[1..] == pieces[1..];
      assert Join(tail, sep) == p0[1..] + [sep] + Join(pieces[1..], sep);
      assert s == [p0[0]] + Join(tail, sep);
      assert s[1..] == Join(tail, sep);
      assert p0[0] in p0;
      forall i | 0 <= i < |tail|
        ensures Free(tail[i], sep)
      {
        if i == 0 {
          assert forall c :: c in p0[1..] ==> c in p0;
        } else {
          assert tail[i] == pieces[i];
        }
      }
      SplitJoin(tail, sep);
      assert [p0[0]] + p0[1..] == p0;
    }
  }

  /** A separator-free text is its own single piece. */
  lemma {:induction false} SplitFreeWhole(s: string, sep: char)
    requires Free(s, sep)
    ensures Split(s, sep) == [s]
  {
    if s != [] {
      assert s[0] in s;
      assert forall c :: c in s[1..] ==> c in s;
      SplitFreeWhole(s[1..], sep);
      assert [s[0]] + s[1..] == s;
    }
  }

  /**
   * `r` is the text before the first occurrence of `sep` in `s`: a prefix of `s` without
   * `sep`, followed either by the end of `s` or by `sep`.
   */
  predicate IsFirstSegment(s: string, r: string, sep: char)
  {
    r <= s && Free(r, sep) && (|r| == |s| || s[|r|] == sep)
  }

  /** The first piece of a split is the text before the first separator, or all of it if there is none. */
  lemma {:induction false} SplitHead(s: string, sep: char)
    ensures IsFirstSegment(s, Split(s, sep)[0], sep)
  {
    if s != [] {
      SplitHead(s[1..], sep);
      var rest := Split(s[1..], sep);
      if s[0] != sep {
        var r := Split(s, sep)[0];
        assert r == [s[0]] + rest[0];
        assert forall c :: c in r ==> c == s[0] || c in rest[0];
        assert r <= s by {
          assert rest[0] <= s[1..];
          assert s == [s[0]] + s[1..];
        }
        if |r| < |s| {
          assert s[|r|] == s[1..][|rest[0]|];
        }
      }
    }
  }

  /** The text before the first separator is unique. */
  lemma FirstSegmentUnique(s: string, r1: string, r2: string, sep: char)
    requires IsFirstSegment(s, r1, sep) && IsFirstSegment(s, r2, sep)
    ensures r1 == r2
  {
    assert r1 == s[..|r1|] && r2 == s[..|r2|];
  }

  /** The badge shown for an entry's year text. */
  function BadgeLabel(year: string): string
  {
    if Includes(year, "Completed") then "2025" else Split(year, Dash)[0]
  }

  /**
   * A year text that mentions "Completed" gets the badge "2025"; any other gets exactly the
   * text before its first en dash, or the whole text when it has none.
   */
  lemma BadgeLabelSpec(year: string)
    ensures (exists i :: OccursAt(year, "Completed", i)) ==> BadgeLabel(year) == "2025"
    ensures !(exists i :: OccursAt(year, "Completed", i)) ==>
      forall r :: IsFirstSegment(year, r, Dash) <==> BadgeLabel(year) == r
  {
    IncludesIff(year, "Completed");
    SplitHead(year, Dash);
    forall r | IsFirstSegment(year, r, Dash)
      ensures Split(year, Dash)[0] == r
    {
      FirstSegmentUnique(year, r, Split(year, Dash)[0], Dash);
    }
  }

  /** The year texts of the four education entries, in order; each period is written around its dash. */
  const Years: seq<string> := [
    "Completed on 02/06/2025",
    "2014" + [Dash] + "2020 (Graduated on 03/26/2020)",
    "2008" + [Dash] + "2012",
    "20/05/2024 " + [Dash] + " 21/05/2024"
  ]

  /** The badges the grid shows for the four entries; the last keeps the space before its dash. */
  lemma StaticBadges()
    ensures |Years| == 4
    ensures BadgeLabel(Years[0]) == "2025"
    ensures BadgeLabel(Years[1]) == "2014"
    ensures BadgeLabel(Years[2]) == "2008"
    ensures BadgeLabel(Years[3]) == "20/05/2024 "
  {
    ResidencyBadge();
    MasterBadge();
    BachelorBadge();
    TrainingBadge();
  }

  lemma ResidencyBadge()
    ensures BadgeLabel(Years[0]) == "2025"
  {
    var completed := "Completed";
    assert Years[0][..|completed|] == completed;
  }

  lemma MasterBadge()
    ensures BadgeLabel(Years[1]) == "2014"
  {
    BadgeAt("2014", "2020 (Graduated on 03/26/2020)");
  }

  lemma BachelorBadge()
    ensures BadgeLabel(Years[2]) == "2008"
  {
    BadgeAt("2008", "2012");
  }

  lemma TrainingBadge()
    ensures BadgeLabel(Years[3]) == "20/05/2024 "
  {
    BadgeAt("20/05/2024 ", " 21/05/2024");
  }

  /** A period `head – tail` without 'C' and with no other dash before it has the badge `head`. */
  lemma BadgeAt(head: string, tail: string)
    requires Free(head, Dash)
    requires 'C' !in head && 'C' !in tail
    ensures BadgeLabel(head + [Dash] + tail) == head
  {
    var year := head + [Dash] + tail;
    assert 'C' !in year;
    MissingFirstChar(year, "Completed");
    SplitHead(year, Dash);
    assert IsFirstSegment(year, head, Dash);
    FirstSegmentUnique(year, head, Split(year, Dash)[0], Dash);
  }
}
