/**
  The "did you mean" helper of the option parser (app/src/cli/cli.hpp).

  An edit script is the independent meaning of "distance": the two-row table in
  `Levenshtein` is proved to return the length of a shortest script.
 */
module Levenshtein {
  import opened Options

  // ---------- Edit scripts ----------

  /** Replace costs nothing when it keeps the character. */
  datatype Edit = Replace(from: char, to: char) | Insert(to: char) | Delete(from: char)

  type Script = seq<Edit>

  function Source(e: Script): string {
    if e == [] then []
    else (if e[0].Insert? then [] else [e[0].from]) + Source(e[1..])
  }

  function Target(e: Script): string {
    if e == [] then []
    else (if e[0].Delete? then [] else [e[0].to]) + Target(e[1..])
  }

  function EditCost(e: Edit): nat {
    if e.Replace? && e.from == e.to then 0 else 1
  }

  function Cost(e: Script): nat {
    if e == [] then 0 else EditCost(e[0]) + Cost(e[1..])
  }

  ghost predicate Transforms(e: Script, a: string, b: string) {
    Source(e) == a && Target(e) == b
  }

  /** `d` edits suffice to turn `a` into `b`, and no script uses fewer. */
  ghost predicate IsDistance(a: string, b: string, d: int) {
    && (exists e: Script :: Transforms(e, a, b) && Cost(e) == d)
    && (forall e: Script :: Transforms(e, a, b) ==> d <= Cost(e))
  }

  lemma {:induction false} ConcatSource(e: Script, f: Script)
    ensures Source(e + f) == Source(e) + Source(f)
  {
    if e == [] {
      assert e + f == f;
    } else {
      assert (e + f)[0] == e[0] && (e + f)[1..] == e[1..] + f;
      ConcatSource(e[1..], f);
    }
  }

  lemma {:induction false} ConcatTarget(e: Script, f: Script)
    ensures Target(e + f) == Target(e) + Target(f)
  {
    if e == [] {
      assert e + f == f;
    } else {
      assert (e + f)[0] == e[0] && (e + f)[1..] == e[1..] + f;
      ConcatTarget(e[1..], f);
    }
  }

  lemma {:induction false} ConcatCost(e: Script, f: Script)
    ensures Cost(e + f) == Cost(e) + Cost(f)
  {
    if e == [] {
      assert e + f == f;
    } else {
      assert (e + f)[0] == e[0] && (e + f)[1..] == e[1..] + f;
      ConcatCost(e[1..], f);
    }
  }

  // ---------- The recurrence on last characters ----------

  function Min(x: int, y: int): int { if x <= y then x else y }

  function Distance(a: string, b: string): nat
    decreases |a| + |b|
  {
    if |a| == 0 then |b|
    else if |b| == 0 then |a|
    else
      var a', b' := a[..|a| - 1], b[..|b| - 1];
      var substitution := Distance(a', b') + (if a[|a| - 1] != b[|b| - 1] then 1 else 0);
      Min(substitution, Min(Distance(a', b) + 1, Distance(a, b') + 1))
  }

  /** A shortest script, read off the recurrence. */
  function Witness(a: string, b: string): Script
    decreases |a| + |b|
  {
    if |a| == 0 then
      if |b| == 0 then [] else Witness(a, b[..|b| - 1]) + [Insert(b[|b| - 1])]
    else if |b| == 0 then Witness(a[..|a| - 1], b) + [Delete(a[|a| - 1])]
    else
      var a', b' := a[..|a| - 1], b[..|b| - 1];
      var x, y := a[|a| - 1], b[|b| - 1];
      if Distance(a, b) == Distance(a', b') + (if x != y then 1 else 0) then Witness(a', b') + [Replace(x, y)]
      else if Distance(a, b) == Distance(a', b) + 1 then Witness(a', b) + [Delete(x)]
      else Witness(a, b') + [Insert(y)]
  }

  lemma AppendEdit(p: Script, x: Edit)
    ensures Source(p + [x]) == if x.Insert? then Source(p) else Source(p) + [x.from]
    ensures Target(p + [x]) == if x.Delete? then Target(p) else Target(p) + [x.to]
    ensures Cost(p + [x]) == Cost(p) + EditCost(x)
  {
    ConcatSource(p, [x]);
    ConcatTarget(p, [x]);
    ConcatCost(p, [x]);
  }

  /** The last edit of a witness, and what is left to do before it. */
  lemma LastEdit(a: string, b: string) returns (last: Edit, a': string, b': string)
    requires a != [] || b != []
    ensures |a'| + |b'| < |a| + |b| && Witness(a, b) == Witness(a', b') + [last]
    ensures Distance(a, b) == Distance(a', b') + EditCost(last)
    ensures a == if last.Insert? then a' else a' + [last.from]
    ensures b == if last.Delete? then b' else b' + [last.to]
  {
    if |a| == 0 {
      last, a', b' := Insert(b[|b| - 1]), a, b[..|b| - 1];
    } else if |b| == 0 {
      last, a', b' := Delete(a[|a| - 1]), a[..|a| - 1], b;
    } else {
      var x, y := a[|a| - 1], b[|b| - 1];
      a', b' := a[..|a| - 1], b[..|b| - 1];
      assert a == a' + [x] && b == b' + [y];
      if Distance(a, b) == Distance(a', b') + (if x != y then 1 else 0) {
        last := Replace(x, y);
      } else if Distance(a, b) == Distance(a', b) + 1 {
        last, b' := Delete(x), b;
      } else {
        last, a' := Insert(y), a;
      }
    }
  }

  lemma {:induction false} WitnessIsScript(a: string, b: string)
    ensures Transforms(Witness(a, b), a, b) && Cost(Witness(a, b)) == Distance(a, b)
    decreases |a| + |b|
  {
    if a != [] || b != [] {
      hide Witness, Distance, Source, Target, Cost;
      var last, a', b' := LastEdit(a, b);
      WitnessIsScript(a', b');
      AppendEdit(Witness(a', b'), last);
    }
  }

  lemma {:induction false} NoShorterScript(e: Script)
    ensures Distance(Source(e), Target(e)) <= Cost(e)
  {
    if e == [] { return; }
    var p, last := e[..|e| - 1], e[|e| - 1];
    assert e == p + [last];
    AppendEdit(p, last);
    NoShorterScript(p);
    var a, b := Source(e), Target(e);
    match last {
      case Replace(x, y) => assert a[..|a| - 1] == Source(p) && b[..|b| - 1] == Target(p);
      case Insert(y) => assert b[..|b| - 1] == Target(p) && a == Source(p);
      case Delete(x) => assert a[..|a| - 1] == Source(p) && b == Target(p);
    }
  }

  /** The recurrence computes the length of a shortest edit script. */
  lemma DistanceIsShortest(a: string, b: string)
    ensures IsDistance(a, b, Distance(a, b))
  {
    WitnessIsScript(a, b);
    forall e: Script | Transforms(e, a, b) ensures Distance(a, b) <= Cost(e) {
      NoShorterScript(e);
    }
  }

  // ---------- The distance is a metric ----------

  function Mirror(e: Script): Script {
    if e == [] then []
    else [match e[0]
          case Replace(x, y) => Replace(y, x)
          case Insert(y) => Delete(y)
          case Delete(x) => Insert(x)] + Mirror(e[1..])
  }

  lemma {:induction false} MirrorTransforms(e: Script)
    ensures Transforms(Mirror(e), Target(e), Source(e)) && Cost(Mirror(e)) == Cost(e)
  {
    if e != [] { MirrorTransforms(e[1..]); }
  }

  /** Swapping the operands, as the code does to keep its rows short, is sound. */
  lemma {:induction false} DistanceSymmetric(a: string, b: string)
    ensures Distance(a, b) == Distance(b, a)
  {
    WitnessIsScript(a, b);
    MirrorTransforms(Witness(a, b));
    NoShorterScript(Mirror(Witness(a, b)));
    WitnessIsScript(b, a);
    MirrorTransforms(Witness(b, a));
    NoShorterScript(Mirror(Witness(b, a)));
  }

  /** Runs `e` and then `f`, fusing the edits that meet in the middle string. */
  function Compose(e: Script, f: Script): Script
    requires Target(e) == Source(f)
    decreases |e| + |f|
  {
    if e == [] then f
    else if e[0].Delete? then [e[0]] + Compose(e[1..], f)
    else if f[0].Insert? then [f[0]] + Compose(e, f[1..])
    else
      assert Target(e) == [e[0].to] + Target(e[1..]) && Source(f) == [f[0].from] + Source(f[1..]);
      assert Target(e[1..]) == Target(e)[1..] && Source(f[1..]) == Source(f)[1..];
      var rest := Compose(e[1..], f[1..]);
      match (e[0], f[0])
      case (Replace(x, _), Replace(_, z)) => [Replace(x, z)] + rest
      case (Replace(x, _), Delete(_)) => [Delete(x)] + rest
      case (Insert(_), Replace(_, z)) => [Insert(z)] + rest
      case _ => rest
  }

  lemma {:induction false} ComposeTransforms(e: Script, f: Script)
    requires Target(e) == Source(f)
    ensures Transforms(Compose(e, f), Source(e), Target(f)) && Cost(Compose(e, f)) <= Cost(e) + Cost(f)
    decreases |e| + |f|
  {
    if e == [] {
      assert e + f == f;
    } else if e[0].Delete? {
      ComposeTransforms(e[1..], f);
    } else if f[0].Insert? {
      ComposeTransforms(e, f[1..]);
    } else {
      assert Target(e) == [e[0].to] + Target(e[1..]) && Source(f) == [f[0].from] + Source(f[1..]);
      assert Target(e[1..]) == Target(e)[1..] && Source(f[1..]) == Source(f)[1..];
      ComposeTransforms(e[1..], f[1..]);
    }
  }

  lemma {:induction false} DistanceTriangle(a: string, b: string, c: string)
    ensures Distance(a, c) <= Distance(a, b) + Distance(b, c)
  {
    WitnessIsScript(a, b);
    WitnessIsScript(b, c);
    ComposeTransforms(Witness(a, b), Witness(b, c));
    NoShorterScript(Compose(Witness(a, b), Witness(b, c)));
  }

  lemma {:induction false} FreeScriptCopies(e: Script)
    requires Cost(e) == 0
    ensures Source(e) == Target(e)
  {
    if e != [] { FreeScriptCopies(e[1..]); }
  }

  lemma {:induction false} DistanceZeroIffEqual(a: string, b: string)
    ensures Distance(a, b) == 0 <==> a == b
    decreases |a|
  {
    WitnessIsScript(a, b);
    if Distance(a, b) == 0 { FreeScriptCopies(Witness(a, b)); }
    if a == b && |a| > 0 { DistanceZeroIffEqual(a[..|a| - 1], b[..|b| - 1]); }
  }

  lemma SameEndIsFree(a: string, b: string, c: char)
    ensures Distance(a + [c], b + [c]) <= Distance(a, b)
  {
    assert (a + [c])[..|a|] == a && (b + [c])[..|b|] == b;
  }

  lemma LastDiffers(a: string, c: char, d: char)
    ensures Distance(a + [c], a + [d]) <= 1 && Distance(a + [c], a) <= 1
  {
    DistanceZeroIffEqual(a, a);
    assert (a + [c])[..|a|] == a && (a + [d])[..|a|] == a;
  }

  lemma {:induction false} OneDiffers(a: string, c: char, d: char, b: string)
    ensures Distance(a + [c] + b, a + [d] + b) <= 1 && Distance(a + [c] + b, a + b) <= 1
    decreases |b|
  {
    hide Distance;
    if b == [] {
      assert a + [c] + b == a + [c] && a + [d] + b == a + [d] && a + b == a;
      LastDiffers(a, c, d);
    } else {
      var n := |b| - 1;
      OneDiffers(a, c, d, b[..n]);
      assert b == b[..n] + [b[n]];
      assert a + [c] + b == a + [c] + b[..n] + [b[n]];
      assert a + [d] + b == a + [d] + b[..n] + [b[n]];
      assert a + b == a + b[..n] + [b[n]];
      SameEndIsFree(a + [c] + b[..n], a + [d] + b[..n], b[n]);
      SameEndIsFree(a + [c] + b[..n], a + b[..n], b[n]);
    }
  }

  /** One changed, one missing or one additional character is a distance of 1, wherever it stands. */
  lemma NeighbourDistance(a: string, c: char, d: char, b: string)
    requires c != d
    ensures Distance(a + [c] + b, a + [d] + b) == 1
    ensures Distance(a + [c] + b, a + b) == 1 && Distance(a + b, a + [c] + b) == 1
  {
    hide Distance;
    var x, y, z := a + [c] + b, a + [d] + b, a + b;
    OneDiffers(a, c, d, b);
    DistanceZeroIffEqual(x, y);
    DistanceZeroIffEqual(x, z);
    DistanceSymmetric(x, z);
    assert x[|a|] != y[|a|] && |x| != |z|;
  }

  // ---------- The program ----------

  /** Entry (i, j) of the table: the distance between the first i and the first j characters. */
  function Cell(a: string, b: string, i: nat, j: nat): nat
    requires i <= |a| && j <= |b|
  {
    if i == 0 then j
    else if j == 0 then i
    else
      Min(Cell(a, b, i - 1, j - 1) + (if a[i - 1] != b[j - 1] then 1 else 0),
          Min(Cell(a, b, i, j - 1) + 1, Cell(a, b, i - 1, j) + 1))
  }

  lemma CellEdges(a: string, b: string, k: nat)
    ensures k <= |a| ==> Cell(a, b, k, 0) == k
    ensures k <= |b| ==> Cell(a, b, 0, k) == k
  {}

  lemma CellStep(a: string, b: string, i: nat, j: nat)
    requires 0 < i <= |a| && 0 < j <= |b|
    ensures Cell(a, b, i, j) ==
            Min(Cell(a, b, i - 1, j - 1) + (if a[i - 1] != b[j - 1] then 1 else 0),
                Min(Cell(a, b, i, j - 1) + 1, Cell(a, b, i - 1, j) + 1))
  {}

  lemma {:induction false} CellIsDistance(a: string, b: string, i: nat, j: nat)
    requires i <= |a| && j <= |b|
    ensures Cell(a, b, i, j) == Distance(a[..i], b[..j])
  {
    if i > 0 && j > 0 {
      assert a[..i][..i - 1] == a[..i - 1] && b[..j][..j - 1] == b[..j - 1];
      CellIsDistance(a, b, i - 1, j - 1);
      CellIsDistance(a, b, i, j - 1);
      CellIsDistance(a, b, i - 1, j);
    }
  }

  /** The bottom-right entry, for the operands in either order, is the distance. */
  lemma LastCell(a: string, b: string)
    ensures Cell(a, b, |a|, |b|) == Distance(a, b) == Distance(b, a)
    ensures IsDistance(a, b, Distance(a, b)) && IsDistance(b, a, Distance(a, b))
  {
    CellIsDistance(a, b, |a|, |b|);
    assert a[..|a|] == a && b[..|b|] == b;
    DistanceSymmetric(a, b);
    DistanceIsShortest(a, b);
    DistanceIsShortest(b, a);
  }

  method Levenshtein(a0: string, b0: string) returns (d: int)
    ensures IsDistance(a0, b0, d)
    ensures d == Distance(a0, b0)
  {
    hide Distance, IsDistance, Cell;
    var a, b := a0, b0;
    if |a| > |b| { a, b := b, a; }
    forall i | 0 <= i <= |a| ensures Cell(a, b, i, 0) == i { CellEdges(a, b, i); }

    var prev := new int[|a| + 1](i => i);
    var curr := new int[|a| + 1](_ => 0);

    var j := 1;
    while j <= |b|
      invariant 1 <= j <= |b| + 1
      invariant prev != curr && fresh(prev) && fresh(curr)
      invariant prev.Length == curr.Length == |a| + 1
      invariant forall i {:trigger prev[i]} :: 0 <= i <= |a| ==> prev[i] == Cell(a, b, i, j - 1)
    {
      curr[0] := j;
      CellEdges(a, b, j);
      var i := 1;
      while i <= |a|
        invariant 1 <= i <= |a| + 1
        invariant forall k {:trigger prev[k]} :: 0 <= k <= |a| ==> prev[k] == Cell(a, b, k, j - 1)
        invariant forall k {:trigger curr[k]} :: 0 <= k < i ==> curr[k] == Cell(a, b, k, j)
      {
        var substitution := prev[i - 1] + if a[i - 1] != b[j - 1] then 1 else 0;
        var insertion := curr[i - 1] + 1;
        var deletion := prev[i] + 1;
        curr[i] := Min(substitution, Min(insertion, deletion));
        CellStep(a, b, i, j);
        i := i + 1;
      }
      prev, curr := curr, prev;
      j := j + 1;
    }
    d := prev[prev.Length - 1];
    LastCell(a, b);
  }

  const INT_MAX := 0x7fff_ffff

  /** `options` lists the known options in the order the hash map yields them. */
  method FindSuggestion(options: seq<string>, arg: string) returns (r: Option<string>)
    ensures r == None <==> forall o :: o in options ==> Distance(arg, o) > 2
    ensures r.Some? ==> r.value in options && Distance(arg, r.value) <= 2
    ensures r.Some? ==> forall o :: o in options ==> Distance(arg, r.value) <= Distance(arg, o)
    ensures r.Some? ==> exists k :: 0 <= k < |options| && options[k] == r.value &&
                                    forall j :: 0 <= j < k ==> Distance(arg, options[j]) > Distance(arg, r.value)
  {
    var best: Option<string> := None;
    var bestDistance := INT_MAX;
    for n := 0 to |options|
      invariant bestDistance <= INT_MAX
      invariant forall j :: 0 <= j < n ==> bestDistance <= Distance(arg, options[j])
      invariant best == None ==> bestDistance == INT_MAX
      invariant best.Some? ==> bestDistance == Distance(arg, best.value)
      invariant best.Some? ==> exists k :: 0 <= k < n && options[k] == best.value &&
                                           forall j :: 0 <= j < k ==> Distance(arg, options[j]) > bestDistance
    {
      var distance := Levenshtein(arg, options[n]);
      if distance < bestDistance {
        bestDistance := distance;
        best := Some(options[n]);
      }
    }
    return if bestDistance <= 2 then best else None;
  }
}
