/** The string templater, which looks for the next "%s" in its own output. */
module Template {

  const MARK := "%s"

  /** A mark starts at position `k`. */
  predicate MarkAt(s: string, k: int) {
    0 <= k < |s| - 1 && s[k] == '%' && s[k + 1] == 's'
  }

  predicate NoMark(s: string) {
    forall k :: 0 <= k < |s| - 1 ==> !MarkAt(s, k)
  }

  /** Where the first mark is, or -1. */
  function Index(s: string): (i: int)
    ensures i == -1 <==> NoMark(s)
    ensures i != -1 ==> 0 <= i <= |s| - 2 && MarkAt(s, i)
    ensures forall k :: 0 <= k < i ==> !MarkAt(s, k)
  {
    IndexFrom(s, 0)
  }

  function IndexFrom(s: string, from: nat): (i: int)
    ensures i == -1 || (i >= from && MarkAt(s, i))
    ensures forall k :: from <= k && (i == -1 || k < i) ==> !MarkAt(s, k)
    decreases |s| - from
  {
    if from >= |s| then -1 else if MarkAt(s, from) then from else IndexFrom(s, from + 1)
  }

  /** Each argument in turn replaces whatever is then the first mark. */
  function Rescanned(tpl: string, args: seq<string>): string
    decreases |args|
  {
    if args == [] || Index(tpl) < 0 then tpl
    else Rescanned(tpl[..Index(tpl)] + args[0] + tpl[Index(tpl) + 2..], args[1..])
  }

  /** The templating loop. */
  method Sprintf(tpl: string, args: seq<string>) returns (out: string)
    ensures out == Rescanned(tpl, args)
  {
    out := tpl;
    for i := 0 to |args|
      invariant Rescanned(out, args[i..]) == Rescanned(tpl, args)
    {
      var idx := Index(out);
      if idx < 0 {
        break;
      }
      assert args[i..][1..] == args[i + 1..] && args[i..][0] == args[i];
      out := out[..idx] + args[i] + out[idx + 2..];
    }
  }

  // ----- Positional substitution -----

  /** The template cut at its own marks. */
  function Pieces(tpl: string): (pieces: seq<string>)
    ensures pieces != []
  {
    var i := Index(tpl);
    if i < 0 then [tpl] else [tpl[..i]] + Pieces(tpl[i + 2..])
  }

  /** Pieces and arguments taken alternately; a mark with no argument left stays. */
  function Weave(pieces: seq<string>, args: seq<string>): string
    requires pieces != []
  {
    if |pieces| == 1 then pieces[0]
    else if args == [] then pieces[0] + MARK + Weave(pieces[1..], [])
    else pieces[0] + args[0] + Weave(pieces[1..], args[1..])
  }

  /** An argument that can neither contain a mark nor complete one with what surrounds it. */
  predicate Safe(a: string) {
    a != "" && a[0] != 's' && a[|a| - 1] != '%' && NoMark(a)
  }

  /** `done` holds no mark and does not begin one that `rest` completes. */
  predicate Clean(done: string, rest: string) {
    NoMark(done) && !(done != "" && rest != "" && done[|done| - 1] == '%' && rest[0] == 's')
  }

  lemma FirstMarkIsUnique(s: string, i: int)
    requires MarkAt(s, i) && forall k :: 0 <= k < i ==> !MarkAt(s, k)
    ensures Index(s) == i
  {
  }

  lemma NoMarkConcat(s: string, t: string)
    ensures NoMark(s + t) <==> Clean(s, t) && NoMark(t)
  {
    assert forall k :: MarkAt(s, k) ==> MarkAt(s + t, k);
    forall k | MarkAt(t, k) ensures MarkAt(s + t, |s| + k) {
      assert (s + t)[|s| + k] == t[k] && (s + t)[|s| + k + 1] == t[k + 1];
    }
    if s != "" && t != "" && s[|s| - 1] == '%' && t[0] == 's' {
      assert MarkAt(s + t, |s| - 1);
    }
    forall k | MarkAt(s + t, k) ensures MarkAt(s, k) || MarkAt(t, k - |s|) || !Clean(s, t) {
    }
  }

  /** The next mark is where the rest of the template has it. */
  lemma IndexSkipsClean(done: string, rest: string)
    requires Clean(done, rest)
    ensures Index(done + rest) == if Index(rest) < 0 then -1 else |done| + Index(rest)
  {
    NoMarkConcat(done, rest);
    var i := Index(rest);
    if i >= 0 {
      var s := done + rest;
      assert s[|done| + i] == rest[i] && s[|done| + i + 1] == rest[i + 1];
      forall k | 0 <= k < |done| + i ensures !MarkAt(s, k) {
        if k < |done| - 1 {
          assert MarkAt(s, k) <==> MarkAt(done, k);
        } else if k >= |done| {
          assert MarkAt(s, k) <==> MarkAt(rest, k - |done|);
        }
      }
      FirstMarkIsUnique(s, |done| + i);
    }
  }

  lemma SubstitutionStaysClean(done: string, rest: string, a: string)
    requires Clean(done, rest) && Safe(a) && Index(rest) >= 0
    ensures Clean(done + rest[..Index(rest)] + a, rest[Index(rest) + 2..])
  {
    var head := rest[..Index(rest)];
    assert NoMark(head) by {
      assert forall k :: MarkAt(head, k) ==> MarkAt(rest, k);
    }
    assert Clean(done, head) by {
      assert head != "" ==> head[0] == rest[0];
    }
    NoMarkConcat(done, head);
    NoMarkConcat(done + head, a);
  }

  /** One substitution, seen from both sides. */
  lemma OneSubstitution(done: string, rest: string, a: string)
    requires Clean(done, rest) && Safe(a) && Index(rest) >= 0
    ensures var all, i := done + rest, Index(rest);
            && Index(all) == |done| + i
            && all[..Index(all)] + a + all[Index(all) + 2..] == (done + rest[..i] + a) + rest[i + 2..]
            && Clean(done + rest[..i] + a, rest[i + 2..])
  {
    hide Safe, Clean, MarkAt, NoMark;
    IndexSkipsClean(done, rest);
    SubstitutionStaysClean(done, rest, a);
    var i := Index(rest);
    assert (done + rest)[..|done| + i] == done + rest[..i];
    assert (done + rest)[|done| + i + 2..] == rest[i + 2..];
  }

  lemma WeaveStep(rest: string, args: seq<string>)
    requires Index(rest) >= 0
    ensures Weave(Pieces(rest), args) ==
            rest[..Index(rest)] + (if args == [] then MARK else args[0])
            + Weave(Pieces(rest[Index(rest) + 2..]), if args == [] then [] else args[1..])
  {
    hide MarkAt, NoMark;
    assert Pieces(rest)[1..] == Pieces(rest[Index(rest) + 2..]);
  }

  /** Argument `k` replaces a mark of the template, and another argument comes after it. */
  predicate Followed(tpl: string, args: seq<string>, k: int) {
    0 <= k < |args| - 1 && k < |Pieces(tpl)| - 1
  }

  /** Every argument that another one follows is safe. */
  ghost predicate FollowedAreSafe(tpl: string, args: seq<string>) {
    forall k :: Followed(tpl, args, k) ==> Safe(args[k])
  }

  lemma FollowedStep(rest: string, args: seq<string>)
    requires Index(rest) >= 0 && |args| > 1
    ensures Followed(rest, args, 0)
    ensures forall k :: k > 0 ==> (Followed(rest, args, k) <==> Followed(rest[Index(rest) + 2..], args[1..], k - 1))
  {
    hide MarkAt, NoMark;
    assert Pieces(rest)[1..] == Pieces(rest[Index(rest) + 2..]);
  }

  lemma SafetyStep(rest: string, args: seq<string>)
    requires Index(rest) >= 0 && |args| > 1 && FollowedAreSafe(rest, args)
    ensures Safe(args[0]) && FollowedAreSafe(rest[Index(rest) + 2..], args[1..])
  {
    hide Safe, Pieces, Index;
    FollowedStep(rest, args);
    forall k | Followed(rest[Index(rest) + 2..], args[1..], k) ensures Safe(args[1..][k]) {
      assert Followed(rest, args, k + 1);
    }
  }

  lemma WeaveWhole(tpl: string, args: seq<string>)
    requires Index(tpl) < 0
    ensures Weave(Pieces(tpl), args) == tpl
  {
  }

  /** Without arguments the pieces put back together are the template. */
  lemma {:induction false} WeaveNothing(tpl: string)
    ensures Weave(Pieces(tpl), []) == tpl
    decreases |tpl|
  {
    hide NoMark, Weave, Pieces;
    var i := Index(tpl);
    if i >= 0 {
      WeaveNothing(tpl[i + 2..]);
      WeaveStep(tpl, []);
      assert tpl[..i] + MARK + tpl[i + 2..] == tpl;
    } else {
      WeaveWhole(tpl, []);
    }
  }

  /** The last argument may be anything. */
  lemma LastSubstitution(done: string, rest: string, a: string)
    requires Clean(done, rest) && Index(rest) >= 0
    ensures Rescanned(done + rest, [a]) == done + Weave(Pieces(rest), [a])
  {
    hide Clean, MarkAt, NoMark, Weave, Pieces;
    var i := Index(rest);
    IndexSkipsClean(done, rest);
    assert (done + rest)[..|done| + i] == done + rest[..i];
    assert (done + rest)[|done| + i + 2..] == rest[i + 2..];
    WeaveStep(rest, [a]);
    WeaveNothing(rest[i + 2..]);
    assert [a][1..] == [];
    assert done + rest[..i] + a + rest[i + 2..] == done + (rest[..i] + a + rest[i + 2..]);
  }

  lemma {:induction false} RescanFollowsPieces(done: string, rest: string, args: seq<string>)
    requires Clean(done, rest) && FollowedAreSafe(rest, args)
    ensures Rescanned(done + rest, args) == done + Weave(Pieces(rest), args)
    decreases |args|
  {
    hide Clean, MarkAt, NoMark, Weave, Pieces, FollowedAreSafe;
    if args == [] {
      WeaveNothing(rest);
    } else if Index(rest) < 0 {
      IndexSkipsClean(done, rest);
      WeaveWhole(rest, args);
    } else if |args| == 1 {
      LastSubstitution(done, rest, args[0]);
      assert args == [args[0]];
    } else {
      var i, a := Index(rest), args[0];
      SafetyStep(rest, args);
      OneSubstitution(done, rest, a);
      RescanFollowsPieces(done + rest[..i] + a, rest[i + 2..], args[1..]);
      WeaveStep(rest, args);
      assert done + rest[..i] + a + Weave(Pieces(rest[i + 2..]), args[1..])
          == done + (rest[..i] + a + Weave(Pieces(rest[i + 2..]), args[1..]));
    }
  }

  /** When every argument that another one follows is safe, the rescanning loop is positional substitution. */
  lemma SprintfIsPositional(tpl: string, args: seq<string>)
    requires FollowedAreSafe(tpl, args)
    ensures Rescanned(tpl, args) == Weave(Pieces(tpl), args)
  {
    hide Rescanned, Weave, Pieces, FollowedAreSafe;
    RescanFollowsPieces("", tpl, args);
    assert "" + tpl == tpl && "" + Weave(Pieces(tpl), args) == Weave(Pieces(tpl), args);
  }

  // ----- Quoted arguments -----

  /** As JSON strings are, and so no mark straddles either end. */
  predicate Quoted(a: string) {
    a != "" && a[0] == '"' && a[|a| - 1] == '"'
  }

  /** What ends in a quote and holds no mark stays as it is, whatever is substituted behind it. */
  lemma {:induction false} SettledStays(done: string, rest: string, args: seq<string>)
    requires NoMark(done) && done != "" && done[|done| - 1] == '"'
    ensures Rescanned(done + rest, args) == done + Rescanned(rest, args)
    decreases |args|
  {
    hide NoMark, MarkAt;
    IndexSkipsClean(done, rest);
    if args != [] && Index(rest) >= 0 {
      var i := Index(rest);
      assert (done + rest)[..|done| + i] == done + rest[..i];
      assert (done + rest)[|done| + i + 2..] == rest[i + 2..];
      assert done + rest[..i] + args[0] + rest[i + 2..] == done + (rest[..i] + args[0] + rest[i + 2..]);
      SettledStays(done, rest[..i] + args[0] + rest[i + 2..], args[1..]);
    }
  }

  /** The first mark of a quoted `a` is replaced by the next quoted argument, whose quote then stays there. */
  lemma MarkBecomesQuote(head: string, a: string, tail: string, args: seq<string>)
    requires Clean(head, a) && Index(a) >= 0 && args != [] && Quoted(args[0])
    ensures var p := |head| + Index(a);
            var out := Rescanned(head + (a + tail), args);
            p < |out| && out[p] == '"'
  {
    hide Clean, MarkAt, NoMark, Rescanned;
    var j, b, all := Index(a), args[0], head + (a + tail);
    FirstMarkStays(a, tail);
    CleanBefore(head, a, tail);
    IndexSkipsClean(head, a + tail);
    RescanStep(all, args);
    var settled := head + a[..j] + ['"'];
    assert all[..|head| + j] + b == settled + b[1..];
    assert all[..|head| + j] + b + all[|head| + j + 2..] == settled + (b[1..] + all[|head| + j + 2..]);
    HeadIsClean(head, a, ['"']);
    SettledIsUnmarked(head + a[..j]);
    SettledStays(settled, b[1..] + all[|head| + j + 2..], args[1..]);
  }

  lemma SettledIsUnmarked(done: string)
    requires Clean(done, ['"'])
    ensures NoMark(done + ['"'])
  {
    NoMarkConcat(done, ['"']);
  }

  lemma CleanBefore(head: string, a: string, tail: string)
    requires Clean(head, a) && Index(a) >= 0
    ensures Clean(head, a + tail)
  {
  }

  /** The mark inside an argument takes the argument after it. */
  lemma MarkedSwallows(done: string, rest: string, args: seq<string>)
    requires Clean(done, rest) && Index(rest) >= 0 && |args| > 1
    requires Quoted(args[0]) && Quoted(args[1]) && !NoMark(args[0])
    ensures Rescanned(done + rest, args) != done + Weave(Pieces(rest), args)
  {
    hide Clean, Weave, Pieces, MarkAt, NoMark, Rescanned;
    var i, a := Index(rest), args[0];
    var head, tail := done + rest[..i], rest[i + 2..];
    HeadIsClean(done, rest, a);
    IndexSkipsClean(done, rest);
    RescanStep(done + rest, args);
    assert (done + rest)[..|done| + i] == head && (done + rest)[|done| + i + 2..] == tail;
    assert head + a + tail == head + (a + tail);
    MarkBecomesQuote(head, a, tail, args[1..]);
    WeaveStep(rest, args);
    WovenAt(done, rest[..i], a, Weave(Pieces(tail), args[1..]), Index(a));
    MarkStartsWithPercent(a);
  }

  lemma WovenAt(done: string, piece: string, a: string, tail: string, j: nat)
    requires j < |a|
    ensures (done + (piece + a + tail))[|done + piece| + j] == a[j]
  {
  }

  lemma MarkStartsWithPercent(a: string)
    requires Index(a) >= 0
    ensures a[Index(a)] == '%'
  {
  }

  lemma RescanStep(tpl: string, args: seq<string>)
    requires args != [] && Index(tpl) >= 0
    ensures Rescanned(tpl, args) == Rescanned(tpl[..Index(tpl)] + args[0] + tpl[Index(tpl) + 2..], args[1..])
  {
  }

  lemma FirstMarkStays(s: string, t: string)
    requires Index(s) >= 0
    ensures Index(s + t) == Index(s)
  {
    assert forall k :: 0 <= k < |s| - 1 ==> (MarkAt(s + t, k) <==> MarkAt(s, k));
    FirstMarkIsUnique(s + t, Index(s));
  }

  /** Up to its first mark a template is clean, whatever quoted text follows. */
  lemma HeadIsClean(done: string, rest: string, next: string)
    requires Clean(done, rest) && Index(rest) >= 0 && next != "" && next[0] == '"'
    ensures Clean(done + rest[..Index(rest)], next)
  {
    var head := rest[..Index(rest)];
    assert NoMark(head) by {
      assert forall k :: MarkAt(head, k) ==> MarkAt(rest, k);
    }
    assert Clean(done, head) by {
      assert head != "" ==> head[0] == rest[0];
    }
    NoMarkConcat(done, head);
  }

  lemma {:induction false} MarkedShows(done: string, rest: string, args: seq<string>, m: nat)
    requires Clean(done, rest) && forall k :: 0 <= k < |args| ==> Quoted(args[k])
    requires Followed(rest, args, m) && !NoMark(args[m])
    ensures Rescanned(done + rest, args) != done + Weave(Pieces(rest), args)
    decreases m
  {
    hide Clean, MarkAt, NoMark, Weave, Pieces;
    var i, a := Index(rest), args[0];
    MarksLeft(rest, args, m);
    if !NoMark(a) {
      MarkedSwallows(done, rest, args);
    } else {
      assert Safe(a);
      FollowedStep(rest, args);
      OneSubstitution(done, rest, a);
      MarkedShows(done + rest[..i] + a, rest[i + 2..], args[1..], m - 1);
      WeaveStep(rest, args);
      assert done + rest[..i] + a + Weave(Pieces(rest[i + 2..]), args[1..])
          == done + (rest[..i] + a + Weave(Pieces(rest[i + 2..]), args[1..]));
    }
  }

  lemma MarksLeft(tpl: string, args: seq<string>, k: nat)
    requires Followed(tpl, args, k)
    ensures Index(tpl) >= 0 && |args| > 1
  {
  }

  /**
   With double-quoted arguments the loop is positional exactly when no argument that takes a
   place in the template and has another argument after it contains a mark.
   */
  lemma QuotedIsPositional(tpl: string, args: seq<string>)
    requires forall k :: 0 <= k < |args| ==> Quoted(args[k])
    ensures Rescanned(tpl, args) == Weave(Pieces(tpl), args)
            <==> forall k :: Followed(tpl, args, k) ==> NoMark(args[k])
  {
    hide Rescanned, Weave, Pieces, NoMark;
    if m :| Followed(tpl, args, m) && !NoMark(args[m]) {
      assert Clean("", tpl) by {
        EmptyIsClean(tpl);
      }
      MarkedShows("", tpl, args, m);
      assert "" + tpl == tpl && "" + Weave(Pieces(tpl), args) == Weave(Pieces(tpl), args);
    } else {
      SprintfIsPositional(tpl, args);
    }
  }

  lemma EmptyIsClean(rest: string)
    ensures Clean("", rest)
  {
  }

  /** A single mark with text on both sides is replaced by the argument, whatever the argument is. */
  lemma OneMark(before: string, after: string, a: string)
    requires NoMark(before) && (before == "" || before[|before| - 1] != '%')
    ensures Rescanned(before + "%s" + after, [a]) == before + a + after
    ensures Rescanned(before, [a]) == before
  {
    var tpl := before + "%s" + after;
    assert tpl == before + ("%s" + after);
    assert MarkAt("%s" + after, 0);
    FirstMarkIsUnique("%s" + after, 0);
    IndexSkipsClean(before, "%s" + after);
    assert tpl[..|before|] == before && tpl[|before| + 2..] == after;
    assert [a][1..] == [];
  }

  // ----- Safe is exactly the condition -----

  /** A template with one mark whose substitution leaves a mark behind gives the game away. */
  lemma LeftoverMark(tpl: string, a: string)
    requires Index(tpl) >= 0 && NoMark(tpl[Index(tpl) + 2..])
    requires !NoMark(tpl[..Index(tpl)] + a + tpl[Index(tpl) + 2..])
    ensures Rescanned(tpl, [a, "x"]) != Weave(Pieces(tpl), [a, "x"])
  {
    var i := Index(tpl);
    var once := tpl[..i] + a + tpl[i + 2..];
    assert [a, "x"][1..] == ["x"] && ["x"][1..] == [];
    assert Rescanned(tpl, [a, "x"]) == Rescanned(once, ["x"]);
    assert Rescanned(once, ["x"]) == Rescanned(once[..Index(once)] + "x" + once[Index(once) + 2..], []);
    assert |Rescanned(tpl, [a, "x"])| == |once| - 1;
    assert Pieces(tpl) == [tpl[..i], tpl[i + 2..]];
    assert Pieces(tpl)[1..] == [tpl[i + 2..]];
    assert Weave(Pieces(tpl), [a, "x"]) == once;
  }

  lemma UnsafeShows(a: string) returns (tpl: string)
    requires !Safe(a)
    ensures Rescanned(tpl, [a, "x"]) != Weave(Pieces(tpl), [a, "x"])
  {
    if !NoMark(a) {
      tpl := "%s";
      assert MarkAt(tpl, 0);
      FirstMarkIsUnique(tpl, 0);
      assert tpl[..0] + a + tpl[2..] == a;
    } else if a == "" {
      tpl := "%%ss";
      assert MarkAt(tpl, 1);
      FirstMarkIsUnique(tpl, 1);
      assert MarkAt(tpl[..1] + a + tpl[3..], 0);
    } else if a[0] == 's' {
      tpl := "%%s";
      assert MarkAt(tpl, 1);
      FirstMarkIsUnique(tpl, 1);
      assert MarkAt(tpl[..1] + a + tpl[3..], 0);
    } else {
      tpl := "%ss";
      assert MarkAt(tpl, 0);
      FirstMarkIsUnique(tpl, 0);
      assert MarkAt(tpl[..0] + a + tpl[2..], |a| - 1);
    }
    LeftoverMark(tpl, a);
  }

  /** An argument may be followed by any safe arguments, in any template, exactly when it is safe itself. */
  lemma SafeIsExact(a: string)
    ensures Safe(a) <==>
            forall tpl: string, rest: seq<string> :: (forall k :: 0 <= k < |rest| ==> Safe(rest[k])) ==>
              Rescanned(tpl, [a] + rest) == Weave(Pieces(tpl), [a] + rest)
  {
    if Safe(a) {
      forall tpl: string, rest: seq<string> | forall k :: 0 <= k < |rest| ==> Safe(rest[k])
        ensures Rescanned(tpl, [a] + rest) == Weave(Pieces(tpl), [a] + rest)
      {
        SprintfIsPositional(tpl, [a] + rest);
      }
    } else {
      var tpl := UnsafeShows(a);
      assert [a] + ["x"] == [a, "x"];
      assert Safe(["x"][0]);
      assert Rescanned(tpl, [a] + ["x"]) != Weave(Pieces(tpl), [a] + ["x"]);
    }
  }
}
