/** String splitting as the .NET runtime does it for `String.Split(char[])`:
    every character of the separator set ends a piece. `Pieces` keeps the
    empty pieces (no options); `Split` drops them, which is what
    `StringSplitOptions.RemoveEmptyEntries` asks for. */
module StringSplit {

  /** The pieces of `s` between separator characters, empty ones included. */
  function Pieces(s: string, seps: set<char>): (ps: seq<string>)
    ensures |ps| >= 1
  {
    if s == [] then [[]]
    else
      var rest := Pieces(s[1..], seps);
      if s[0] in seps then [[]] + rest
      else [[s[0]] + rest[0]] + rest[1..]
  }

  /** `ps` without its empty strings, the others in their order. */
  function NonEmpty(ps: seq<string>): (qs: seq<string>)
    ensures |qs| <= |ps|
    ensures forall i :: 0 <= i < |qs| ==> qs[i] != []
  {
    if ps == [] then []
    else (if ps[0] == [] then [] else [ps[0]]) + NonEmpty(ps[1..])
  }

  /** `s.Split(seps, StringSplitOptions.RemoveEmptyEntries)`. */
  function Split(s: string, seps: set<char>): seq<string>
  {
    NonEmpty(Pieces(s, seps))
  }

  /** The characters of `s` that are not separators, in their order. */
  function Strip(s: string, seps: set<char>): string
  {
    if s == [] then []
    else (if s[0] in seps then [] else [s[0]]) + Strip(s[1..], seps)
  }

  function Concat(ps: seq<string>): string
  {
    if ps == [] then [] else ps[0] + Concat(ps[1..])
  }

  /** The pieces glued back together with `c` between neighbours. */
  function JoinWith(ps: seq<string>, c: char): string
  {
    if ps == [] then []
    else if |ps| == 1 then ps[0]
    else ps[0] + [c] + JoinWith(ps[1..], c)
  }

  /** The longest prefix of `s` that holds no separator. */
  function TakeUntil(s: string, seps: set<char>): string
  {
    if s == [] || s[0] in seps then [] else [s[0]] + TakeUntil(s[1..], seps)
  }

  /** `s` after its leading separators. */
  function SkipSeparators(s: string, seps: set<char>): string
  {
    if s != [] && s[0] in seps then SkipSeparators(s[1..], seps) else s
  }

  ghost predicate SeparatorFree(p: string, seps: set<char>)
  {
    forall k :: 0 <= k < |p| ==> p[k] !in seps
  }

  /** No piece holds a separator. */
  lemma {:induction false} PiecesSeparatorFree(s: string, seps: set<char>)
    ensures forall i :: 0 <= i < |Pieces(s, seps)| ==> SeparatorFree(Pieces(s, seps)[i], seps)
  {
    if s != [] {
      PiecesSeparatorFree(s[1..], seps);
      var rest := Pieces(s[1..], seps);
      if s[0] !in seps {
        assert SeparatorFree([s[0]] + rest[0], seps) by {
          assert SeparatorFree(rest[0], seps);
        }
      }
    }
  }

  /** Every piece of a split is free of separators, and none is empty. */
  lemma SplitSeparatorFree(s: string, seps: set<char>)
    ensures forall i :: 0 <= i < |Split(s, seps)| ==>
      Split(s, seps)[i] != [] && SeparatorFree(Split(s, seps)[i], seps)
  {
    PiecesSeparatorFree(s, seps);
    NonEmptyKeepsPieces(Pieces(s, seps), seps);
  }

  lemma {:induction false} NonEmptyKeepsPieces(ps: seq<string>, seps: set<char>)
    requires forall i :: 0 <= i < |ps| ==> SeparatorFree(ps[i], seps)
    ensures forall i :: 0 <= i < |NonEmpty(ps)| ==> SeparatorFree(NonEmpty(ps)[i], seps)
  {
    if ps != [] {
      NonEmptyKeepsPieces(ps[1..], seps);
    }
  }

  /** A split loses nothing but the separators: glued back together the
      pieces are the input with its separator characters taken out. */
  lemma SplitConcat(s: string, seps: set<char>)
    ensures Concat(Split(s, seps)) == Strip(s, seps)
  {
    NonEmptyConcat(Pieces(s, seps));
    PiecesConcat(s, seps);
  }

  lemma {:induction false} PiecesConcat(s: string, seps: set<char>)
    ensures Concat(Pieces(s, seps)) == Strip(s, seps)
  {
    if s != [] {
      PiecesConcat(s[1..], seps);
      var rest := Pieces(s[1..], seps);
      if s[0] in seps {
        assert ([[]] + rest)[1..] == rest;
      } else {
        var ps := [[s[0]] + rest[0]] + rest[1..];
        assert ps[1..] == rest[1..];
        assert Concat(rest) == rest[0] + Concat(rest[1..]);
        assert Concat(ps) == [s[0]] + rest[0] + Concat(rest[1..]);
      }
    }
  }

  lemma {:induction false} NonEmptyConcat(ps: seq<string>)
    ensures Concat(NonEmpty(ps)) == Concat(ps)
  {
    if ps != [] {
      NonEmptyConcat(ps[1..]);
      var head := if ps[0] == [] then [] else [ps[0]];
      ConcatAppend(head, NonEmpty(ps[1..]));
    }
  }

  lemma {:induction false} ConcatAppend(a: seq<string>, b: seq<string>)
    ensures Concat(a + b) == Concat(a) + Concat(b)
  {
    if a == [] {
      assert a + b == b;
    } else {
      assert (a + b)[1..] == a[1..] + b;
      ConcatAppend(a[1..], b);
    }
  }

  /** A split is empty exactly when the input is made of separators only. */
  lemma {:induction false} SplitEmptyIff(s: string, seps: set<char>)
    ensures Split(s, seps) == [] <==> forall k :: 0 <= k < |s| ==> s[k] in seps
  {
    SplitConcat(s, seps);
    StripEmptyIff(s, seps);
    ConcatEmptyIff(Split(s, seps));
  }

  lemma {:induction false} StripEmptyIff(s: string, seps: set<char>)
    ensures Strip(s, seps) == [] <==> forall k :: 0 <= k < |s| ==> s[k] in seps
  {
    if s != [] {
      StripEmptyIff(s[1..], seps);
      assert forall k :: 1 <= k < |s| ==> s[k] == s[1..][k - 1];
    }
  }

  lemma {:induction false} ConcatEmptyIff(ps: seq<string>)
    requires forall i :: 0 <= i < |ps| ==> ps[i] != []
    ensures Concat(ps) == [] <==> ps == []
  {
  }

  /** The first piece of a split is the first word: the input after its
      leading separators, cut at the next separator. */
  lemma {:induction false} SplitHead(s: string, seps: set<char>)
    requires Split(s, seps) != []
    ensures Split(s, seps)[0] == TakeUntil(SkipSeparators(s, seps), seps)
  {
    var rest := Pieces(s[1..], seps);
    if s[0] in seps {
      assert ([[]] + rest)[1..] == rest;
      SplitHead(s[1..], seps);
    } else {
      PiecesHead(s[1..], seps);
    }
  }

  /** The first piece, empty or not, is the prefix before the first separator. */
  lemma {:induction false} PiecesHead(s: string, seps: set<char>)
    ensures Pieces(s, seps)[0] == TakeUntil(s, seps)
  {
    if s != [] && s[0] !in seps {
      PiecesHead(s[1..], seps);
    }
  }

  /** Without any separator in it, a non-empty input is its own only piece. */
  lemma {:induction false} SplitNoSeparator(s: string, seps: set<char>)
    requires forall k :: 0 <= k < |s| ==> s[k] !in seps
    ensures Split(s, seps) == if s == [] then [] else [s]
  {
    PiecesNoSeparator(s, seps);
  }

  lemma {:induction false} PiecesNoSeparator(s: string, seps: set<char>)
    requires forall k :: 0 <= k < |s| ==> s[k] !in seps
    ensures Pieces(s, seps) == [s]
  {
    if s != [] {
      assert forall k :: 0 <= k < |s[1..]| ==> s[1..][k] == s[k + 1];
      PiecesNoSeparator(s[1..], seps);
      assert [s[0]] + s[1..] == s;
    }
  }

  /** With one separator character, joining the pieces with it gives the
      input back: the split keeping empties loses nothing. */
  lemma {:induction false} PiecesJoin(s: string, c: char)
    ensures JoinWith(Pieces(s, {c}), c) == s
  {
    if s != [] {
      PiecesJoin(s[1..], c);
      var rest := Pieces(s[1..], {c});
      if s[0] == c {
        assert ([[]] + rest)[1..] == rest;
        assert [c] + s[1..] == s;
      } else {
        var ps := [[s[0]] + rest[0]] + rest[1..];
        assert ps[1..] == rest[1..];
        if |rest| == 1 {
          assert [s[0]] + s[1..] == s;
        } else {
          assert JoinWith(rest, c) == rest[0] + [c] + JoinWith(rest[1..], c);
          assert [s[0]] + s[1..] == s;
        }
      }
    }
  }

  /** Cutting at one separator: the split of what comes before it, then
      the split of what follows. */
  lemma SplitAtSeparator(a: string, c: char, t: string, seps: set<char>)
    requires c in seps
    ensures Split(a + [c] + t, seps) == Split(a, seps) + Split(t, seps)
  {
    PiecesAtSeparator(a, c, t, seps);
    NonEmptyAppend(Pieces(a, seps), Pieces(t, seps));
  }

  lemma {:induction false} PiecesAtSeparator(a: string, c: char, t: string, seps: set<char>)
    requires c in seps
    ensures Pieces(a + [c] + t, seps) == Pieces(a, seps) + Pieces(t, seps)
  {
    if a == [] {
      assert (a + [c] + t)[1..] == t;
    } else {
      assert (a + [c] + t)[1..] == a[1..] + [c] + t;
      PiecesAtSeparator(a[1..], c, t, seps);
      var pa, pt := Pieces(a[1..], seps), Pieces(t, seps);
      if a[0] !in seps {
        assert (pa + pt)[0] == pa[0];
        assert (pa + pt)[1..] == pa[1..] + pt;
      }
    }
  }

  lemma {:induction false} NonEmptyAppend(p: seq<string>, q: seq<string>)
    ensures NonEmpty(p + q) == NonEmpty(p) + NonEmpty(q)
  {
    if p == [] {
      assert p + q == q;
    } else {
      assert (p + q)[1..] == p[1..] + q;
      NonEmptyAppend(p[1..], q);
    }
  }
}
