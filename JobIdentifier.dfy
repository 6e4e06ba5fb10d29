/**
 * Derivation of a job's id from the `data-href` attribute of its listing
 * item: C#'s `dataHref.Split("-").Last()`.
 */
module JobIdentifier {

  const Dash: char := '-'

  /** The pieces of `s` between dashes, as `String.Split("-")` returns them. */
  function SplitOnDash(s: string): (parts: seq<string>)
    ensures |parts| >= 1
    ensures forall i :: 0 <= i < |parts| ==> Dash !in parts[i]
    ensures |parts| == 1 <==> Dash !in s
    ensures |parts| == 1 ==> parts == [s]
  {
    if s == [] then [""]
    else
      var rest := SplitOnDash(s[1..]);
      assert s == [s[0]] + s[1..];
      if s[0] == Dash then [""] + rest
      else [[s[0]] + rest[0]] + rest[1..]
  }

  /** The pieces joined back with a dash between neighbours (C# `String.Join("-", parts)`). */
  function JoinWithDash(parts: seq<string>): string
    requires |parts| >= 1
  {
    if |parts| == 1 then parts[0] else parts[0] + [Dash] + JoinWithDash(parts[1..])
  }

  /** Splitting loses nothing: joining the pieces gives back the string. */
  lemma {:induction false} JoinSplit(s: string)
    ensures JoinWithDash(SplitOnDash(s)) == s
  {
    if s != [] {
      var rest := SplitOnDash(s[1..]);
      JoinSplit(s[1..]);
      if s[0] == Dash {
        assert SplitOnDash(s) == [""] + rest;
        assert SplitOnDash(s)[1..] == rest;
      } else {
        var parts := SplitOnDash(s);
        assert parts == [[s[0]] + rest[0]] + rest[1..];
        if |rest| == 1 {
          assert parts == [[s[0]] + rest[0]];
        } else {
          assert parts[1..] == rest[1..];
          assert JoinWithDash(rest) == rest[0] + [Dash] + JoinWithDash(rest[1..]);
        }
      }
    }
  }

  /** Joining dash-free pieces and splitting again gives back the pieces. */
  lemma {:induction false} SplitJoin(parts: seq<string>)
    requires |parts| >= 1
    requires forall i :: 0 <= i < |parts| ==> Dash !in parts[i]
    ensures SplitOnDash(JoinWithDash(parts)) == parts
  {
    if |parts| == 1 {
    } else {
      SplitJoin(parts[1..]);
      SplitPrefix(parts[0], JoinWithDash(parts[1..]));
    }
  }

  /** Splitting `w + "-" + t`, with `w` dash-free, puts `w` in front of the pieces of `t`. */
  lemma {:induction false} SplitPrefix(w: string, t: string)
    requires Dash !in w
    ensures SplitOnDash(w + [Dash] + t) == [w] + SplitOnDash(t)
  {
    if w == [] {
      assert [] + [Dash] + t == [Dash] + t;
      assert ([Dash] + t)[1..] == t;
    } else {
      SplitPrefix(w[1..], t);
      var s := w + [Dash] + t;
      assert s[0] == w[0];
      assert s[1..] == w[1..] + [Dash] + t;
      var rest := SplitOnDash(s[1..]);
      assert rest == [w[1..]] + SplitOnDash(t);
      assert rest[0] == w[1..] && rest[1..] == SplitOnDash(t);
      assert [w[0]] + w[1..] == w;
      assert SplitOnDash(s) == [w] + rest[1..];
    }
  }

  /** The last piece of `s` between dashes is a suffix of `s` preceded by a dash, unless it is all of `s`. */
  lemma {:induction false} LastPieceIsSuffix(s: string)
    ensures var p := SplitOnDash(s)[|SplitOnDash(s)| - 1];
      |p| <= |s| && p == s[|s| - |p|..] &&
      (|p| < |s| ==> s[|s| - |p| - 1] == Dash)
  {
    if s != [] {
      var t := s[1..];
      LastPieceIsSuffix(t);
      var rest := SplitOnDash(t);
      var q := rest[|rest| - 1];
      if s[0] == Dash || |rest| > 1 {
        assert SplitOnDash(s)[|SplitOnDash(s)| - 1] == q;
        SuffixOfTail(s, |q|);
      } else {
        assert SplitOnDash(s) == [[s[0]] + rest[0]];
        assert s == [s[0]] + t;
      }
    }
  }

  /** Suffixes of `s[1..]` are suffixes of `s`, with the same character before them. */
  lemma SuffixOfTail(s: string, n: nat)
    requires n < |s|
    ensures s[1..][|s| - 1 - n..] == s[|s| - n..]
    ensures n < |s| - 1 ==> s[1..][|s| - 1 - n - 1] == s[|s| - n - 1]
  {
  }

  /**
   * The job id for a listing item's `data-href`: the text after its last
   * dash, or all of it when it has no dash.
   */
  function DeriveJobId(dataHref: string): string {
    if dataHref == [] || dataHref[|dataHref| - 1] == Dash then []
    else DeriveJobId(dataHref[..|dataHref| - 1]) + [dataHref[|dataHref| - 1]]
  }

  /**
   * The id has no dash and is a suffix of `dataHref` that starts at its
   * beginning or right after a dash.
   */
  lemma {:induction false} DeriveJobIdIsSuffixAfterLastDash(dataHref: string)
    ensures var id := DeriveJobId(dataHref);
      Dash !in id && |id| <= |dataHref| && id == dataHref[|dataHref| - |id|..] &&
      (|id| < |dataHref| ==> dataHref[|dataHref| - |id| - 1] == Dash)
  {
    if dataHref != [] && dataHref[|dataHref| - 1] != Dash {
      var init := dataHref[..|dataHref| - 1];
      DeriveJobIdIsSuffixAfterLastDash(init);
      var id := DeriveJobId(dataHref);
      assert id == DeriveJobId(init) + [dataHref[|dataHref| - 1]];
      assert dataHref == init + [dataHref[|dataHref| - 1]];
    }
  }

  /** `DeriveJobId` is `dataHref.Split("-").Last()`. */
  lemma {:induction false} DeriveJobIdIsLastPiece(dataHref: string)
    ensures var parts := SplitOnDash(dataHref); DeriveJobId(dataHref) == parts[|parts| - 1]
  {
    LastPieceIsSuffix(dataHref);
    DeriveJobIdIsSuffixAfterLastDash(dataHref);
    var parts := SplitOnDash(dataHref);
    DashFreeSuffixIsUnique(dataHref, parts[|parts| - 1], DeriveJobId(dataHref));
  }

  /** Two dash-free suffixes of `s` that each start at the beginning or right after a dash are equal. */
  lemma DashFreeSuffixIsUnique(s: string, a: string, b: string)
    requires Dash !in a && |a| <= |s| && a == s[|s| - |a|..] && (|a| < |s| ==> s[|s| - |a| - 1] == Dash)
    requires Dash !in b && |b| <= |s| && b == s[|s| - |b|..] && (|b| < |s| ==> s[|s| - |b| - 1] == Dash)
    ensures a == b
  {
  }

  /** With no dash in `dataHref`, the id is all of it. */
  lemma DeriveJobIdWithoutDash(dataHref: string)
    requires Dash !in dataHref
    ensures DeriveJobId(dataHref) == dataHref
  {
    DeriveJobIdIsSuffixAfterLastDash(dataHref);
  }

  /** A dash-free suffix after a dash is exactly what `DeriveJobId` returns. */
  lemma {:induction false} DeriveJobIdOfDashed(prefix: string, id: string)
    requires Dash !in id
    ensures DeriveJobId(prefix + [Dash] + id) == id
  {
    var s := prefix + [Dash] + id;
    var d := DeriveJobId(s);
    DeriveJobIdIsSuffixAfterLastDash(s);
    assert s[|s| - |id|..] == id;
    assert s[|s| - |id| - 1] == Dash;
    // `d` is a dash-free suffix of `s` that starts right after a dash (or at the start).
    assert |d| == |id|;
  }
}
