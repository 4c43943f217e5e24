/** The string operations the analyzer page uses to lay out the personal-information block:
    JavaScript's `split` with a one-character separator, `join`, and an independent
    character-by-character reference for `split(c).join(sep)`. */
module Text {

  /** The pieces of `s` between the occurrences of `sep`, as `s.split(sep)` returns them.
      There is always at least one piece: `"".split(sep)` is `[""]`. */
  function Split(s: string, sep: char): (parts: seq<string>)
    ensures |parts| >= 1
    decreases |s|
  {
    if |s| == 0 then [""]
    else
      var rest := Split(s[1..], sep);
      if s[0] == sep then [""] + rest
      else [[s[0]] + rest[0]] + rest[1..]
  }

  /** The first piece is the text of `s` before its first `sep`, and it is the only piece exactly
      when `s` has no `sep`. */
  lemma {:induction false} SplitFirst(s: string, sep: char)
    ensures var p := Split(s, sep)[0];
      |p| <= |s| && s[..|p|] == p && sep !in p && (|p| == |s| || s[|p|] == sep)
    ensures |Split(s, sep)| == 1 <==> sep !in s
    decreases |s|
  {
    if |s| > 0 {
      var rest := Split(s[1..], sep);
      SplitFirst(s[1..], sep);
      if s[0] == sep {
        assert Split(s, sep) == [""] + rest;
      } else {
        var first := [s[0]] + rest[0];
        assert Split(s, sep) == [first] + rest[1..];
        assert s[..|first|] == [s[0]] + s[1..][..|rest[0]|];
        assert s == [s[0]] + s[1..];
      }
    }
  }

  /** No piece contains the separator. */
  lemma {:induction false} SplitPiecesFree(s: string, sep: char)
    ensures forall i :: 0 <= i < |Split(s, sep)| ==> sep !in Split(s, sep)[i]
    decreases |s|
  {
    if |s| > 0 {
      var rest := Split(s[1..], sep);
      SplitPiecesFree(s[1..], sep);
      if s[0] == sep {
        assert Split(s, sep) == [""] + rest;
      } else {
        SplitFirst(s[1..], sep);
        assert Split(s, sep) == [[s[0]] + rest[0]] + rest[1..];
      }
    }
  }

  /** `parts.join(sep)`: empty for no pieces, the piece itself for one, and otherwise the first
      piece, the separator, and the join of the remaining pieces. */
  function Join(parts: seq<string>, sep: string): (r: string)
    ensures |parts| == 0 ==> r == ""
    ensures |parts| == 1 ==> r == parts[0]
    ensures |parts| >= 1 ==> |parts[0]| <= |r| && r[..|parts[0]|] == parts[0]
    ensures |parts| >= 2 ==> r[|parts[0]|..] == sep + Join(parts[1..], sep)
    decreases |parts|
  {
    if |parts| == 0 then ""
    else if |parts| == 1 then parts[0]
    else parts[0] + sep + Join(parts[1..], sep)
  }

  /** `s` with every occurrence of the character `c` replaced by `with`, one character at a time. */
  function Replace(s: string, c: char, with: string): string
    decreases |s|
  {
    if |s| == 0 then ""
    else (if s[0] == c then with else [s[0]]) + Replace(s[1..], c, with)
  }

  /** Prepending a character to the first piece prepends it to the joined text. */
  lemma JoinConsFirst(x: char, p: string, ps: seq<string>, sep: string)
    ensures Join([[x] + p] + ps, sep) == [x] + Join([p] + ps, sep)
  {
    if |ps| > 0 {
      assert ([[x] + p] + ps)[1..] == ps;
      assert ([p] + ps)[1..] == ps;
    }
  }

  /** Splitting at `c` and joining with `with` is the same as replacing each `c` by `with`. */
  lemma {:induction false} JoinSplit(s: string, c: char, with: string)
    ensures Join(Split(s, c), with) == Replace(s, c, with)
    decreases |s|
  {
    if |s| > 0 {
      var rest := Split(s[1..], c);
      JoinSplit(s[1..], c, with);
      assert Replace(s, c, with) == (if s[0] == c then with else [s[0]]) + Join(rest, with);
      if s[0] == c {
        var parts := [""] + rest;
        assert Split(s, c) == parts;
        assert parts[1..] == rest;
        assert Join(parts, with) == "" + with + Join(rest, with);
      } else {
        assert Split(s, c) == [[s[0]] + rest[0]] + rest[1..];
        JoinConsFirst(s[0], rest[0], rest[1..], with);
        assert [rest[0]] + rest[1..] == rest;
      }
    }
  }

  /** Replacing `c` by itself changes nothing. */
  lemma {:induction false} ReplaceSelf(s: string, c: char)
    ensures Replace(s, c, [c]) == s
    decreases |s|
  {
    if |s| > 0 {
      ReplaceSelf(s[1..], c);
      assert s == [s[0]] + s[1..];
    }
  }

  /** Round trip: joining the pieces of `s.split(c)` with `c` gives back `s`. */
  lemma SplitJoinRoundTrip(s: string, c: char)
    ensures Join(Split(s, c), [c]) == s
  {
    JoinSplit(s, c, [c]);
    ReplaceSelf(s, c);
  }

  /** Round trip the other way: pieces free of `c`, joined with `c` and split again at `c`, are
      exactly the pieces. With `SplitJoinRoundTrip` this makes `Split(_, c)` and `Join(_, [c])`
      inverse bijections between texts and non-empty lists of `c`-free pieces. */
  lemma {:induction false} SplitOfJoin(ps: seq<string>, c: char)
    requires |ps| >= 1 && forall i :: 0 <= i < |ps| ==> c !in ps[i]
    ensures Split(Join(ps, [c]), c) == ps
    decreases |ps|, |ps[0]|
  {
    if |ps[0]| == 0 {
      if |ps| > 1 {
        var j := Join(ps[1..], [c]);
        SplitOfJoin(ps[1..], c);
        assert Join(ps, [c]) == [c] + j;
        assert ([c] + j)[1..] == j;
        assert Split([c] + j, c) == [""] + ps[1..];
        assert ps == [ps[0]] + ps[1..];
      }
    } else {
      var x, p := ps[0][0], ps[0][1..];
      var qs := [p] + ps[1..];
      assert ps[0] == [x] + p;
      assert ps == [[x] + p] + ps[1..];
      assert x != c by { assert ps[0][0] == x; }
      forall i | 0 <= i < |qs|
        ensures c !in qs[i]
      {
        if i == 0 {
          assert c !in ps[0];
        } else {
          assert qs[i] == ps[i];
        }
      }
      SplitOfJoin(qs, c);
      JoinConsFirst(x, p, ps[1..], [c]);
      var j := Join(qs, [c]);
      assert Join(ps, [c]) == [x] + j;
      assert ([x] + j)[1..] == j;
      assert Split([x] + j, c) == [[x] + qs[0]] + qs[1..];
      assert qs[1..] == ps[1..];
    }
  }

  /** After replacement no `c` is left, provided the replacement text has none. */
  lemma {:induction false} ReplaceRemoves(s: string, c: char, with: string)
    requires c !in with
    ensures c !in Replace(s, c, with)
    decreases |s|
  {
    if |s| > 0 {
      ReplaceRemoves(s[1..], c, with);
    }
  }

  /** When `s` contains `sep`, the pieces after the first are the pieces of the text that
      follows the first `sep`. */
  lemma {:induction false} SplitTail(s: string, sep: char)
    requires sep in s
    ensures |Split(s, sep)| >= 2
    ensures |Split(s, sep)[0]| < |s|
    ensures Split(s, sep)[1..] == Split(s[|Split(s, sep)[0]| + 1..], sep)
    decreases |s|
  {
    var rest := Split(s[1..], sep);
    if s[0] == sep {
      var parts := [""] + rest;
      assert Split(s, sep) == parts;
      assert parts[1..] == rest;
    } else {
      var k :| 0 <= k < |s| && s[k] == sep;
      assert s[1..][k - 1] == sep;
      SplitTail(s[1..], sep);
      SplitFirst(s[1..], sep);
      var first := [s[0]] + rest[0];
      var parts := [first] + rest[1..];
      assert Split(s, sep) == parts;
      assert parts[1..] == rest[1..];
      assert |first| + 1 == |rest[0]| + 2;
      assert s[|first| + 1..] == s[1..][|rest[0]| + 1..];
    }
  }
}
