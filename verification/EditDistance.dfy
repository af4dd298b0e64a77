/** The edit distance behind the word and character error rates. */
module EditDistance {

  function Min(x: nat, y: nat): nat {
    if x <= y then x else y
  }

  /** The distance by recursion on the last items: drop one, add one, or replace one (for free if they agree). */
  function Distance<T(==)>(a: seq<T>, b: seq<T>): nat
    decreases |a| + |b|
  {
    if a == [] then |b|
    else if b == [] then |a|
    else
      var a', b' := a[..|a| - 1], b[..|b| - 1];
      Min(Min(Distance(a', b) + 1, Distance(a, b') + 1),
          Distance(a', b') + if a[|a| - 1] == b[|b| - 1] then 0 else 1)
  }

  /** One row of the classic table up to its `n`-th cell: the distances from `a` to the prefixes of `b`. */
  ghost predicate IsRow<T>(a: seq<T>, b: seq<T>, row: seq<nat>, n: nat) {
    n <= |b| && |row| == n + 1 && forall j :: 0 <= j <= n ==> row[j] == Distance(a, b[..j])
  }

  /** One cell from its three neighbours. */
  lemma Cell<T>(a: seq<T>, b: seq<T>, i: nat, j: nat)
    requires i < |a| && j < |b|
    ensures Distance(a[..i + 1], b[..j + 1])
            == Min(Min(Distance(a[..i], b[..j + 1]) + 1, Distance(a[..i + 1], b[..j]) + 1),
                   Distance(a[..i], b[..j]) + if a[i] == b[j] then 0 else 1)
  {
    assert a[..i + 1][..i] == a[..i] && b[..j + 1][..j] == b[..j];
  }

  function NextCell(above: nat, left: nat, corner: nat, same: bool): nat {
    Min(Min(above + 1, left + 1), corner + if same then 0 else 1)
  }

  lemma LongerRow<T>(a: seq<T>, b: seq<T>, row: seq<nat>, j: nat, cell: nat)
    requires j < |b| && IsRow(a, b, row, j) && cell == Distance(a, b[..j + 1])
    ensures IsRow(a, b, row + [cell], j + 1)
  {
  }

  lemma OneMoreCell<T>(a: seq<T>, b: seq<T>, i: nat, j: nat, previous: seq<nat>, current: seq<nat>)
    requires i < |a| && j < |b| && IsRow(a[..i], b, previous, |b|) && IsRow(a[..i + 1], b, current, j)
    ensures IsRow(a[..i + 1], b, current + [NextCell(previous[j + 1], current[j], previous[j], a[i] == b[j])], j + 1)
  {
    var cell := NextCell(previous[j + 1], current[j], previous[j], a[i] == b[j]);
    assert cell == Distance(a[..i + 1], b[..j + 1]) by { Cell(a, b, i, j); }
    LongerRow(a[..i + 1], b, current, j, cell);
  }

  /** Two rows are enough: the previous one and the one being filled. */
  method Levenshtein<T(==)>(first: seq<T>, second: seq<T>) returns (distance: nat)
    ensures distance == Distance(first, second)
  {
    var previous: seq<nat> := seq(|second| + 1, j => j);
    for index := 0 to |first|
      invariant IsRow(first[..index], second, previous, |second|)
    {
      var current: seq<nat> := [index + 1];
      for position := 0 to |second|
        invariant IsRow(first[..index + 1], second, current, position)
      {
        OneMoreCell(first, second, index, position, previous, current);
        current := current + [NextCell(previous[position + 1], current[position], previous[position],
                                       first[index] == second[position])];
      }
      previous := current;
    }
    assert first[..|first|] == first && second[..|second|] == second;
    distance := previous[|previous| - 1];
  }

  // ----- a metric

  lemma {:induction false} ZeroExactlyOnEqual<T>(a: seq<T>, b: seq<T>)
    ensures Distance(a, b) == 0 <==> a == b
    decreases |a|
  {
    if a != [] && b != [] {
      var a', b' := a[..|a| - 1], b[..|b| - 1];
      ZeroExactlyOnEqual(a', b');
      assert a == a' + [a[|a| - 1]] && b == b' + [b[|b| - 1]];
    }
  }

  lemma {:induction false} Symmetric<T>(a: seq<T>, b: seq<T>)
    ensures Distance(a, b) == Distance(b, a)
    decreases |a| + |b|
  {
    if a != [] && b != [] {
      var a', b' := a[..|a| - 1], b[..|b| - 1];
      Symmetric(a', b);
      Symmetric(a, b');
      Symmetric(a', b');
    }
  }

  /** The distance lies between the difference of the lengths and the longer length. */
  lemma {:induction false} Bounds<T>(a: seq<T>, b: seq<T>)
    ensures |a| <= Distance(a, b) + |b| && |b| <= Distance(a, b) + |a|
    ensures Distance(a, b) <= |a| || Distance(a, b) <= |b|
    decreases |a| + |b|
  {
    if a != [] && b != [] {
      var a', b' := a[..|a| - 1], b[..|b| - 1];
      Bounds(a', b);
      Bounds(a, b');
      Bounds(a', b');
    }
  }

  lemma {:induction false} Triangle<T>(a: seq<T>, b: seq<T>, c: seq<T>)
    ensures Distance(a, c) <= Distance(a, b) + Distance(b, c)
    decreases |a| + |b| + |c|
  {
    Bounds(a, b);
    Bounds(b, c);
    Bounds(a, c);
    if a != [] && b != [] && c != [] {
      var a', b', c' := a[..|a| - 1], b[..|b| - 1], c[..|c| - 1];
      Triangle(a', b, c);
      Triangle(a, b, c');
      Triangle(a, b', c);
      Triangle(a, b', c');
      Triangle(a', b', c);
      Triangle(a', b', c');
    }
  }

  // ----- the shortest way to edit one sequence into the other

  /** One edit anywhere in the sequence: an item inserted, deleted or replaced. */
  ghost predicate OneEdit<T(!new)>(a: seq<T>, b: seq<T>) {
    exists pre, post, x, y :: Edited(a, b, pre, post, x, y)
  }

  ghost predicate Edited<T>(a: seq<T>, b: seq<T>, pre: seq<T>, post: seq<T>, x: T, y: T) {
    || (a == pre + post && b == pre + [y] + post)
    || (a == pre + [x] + post && b == pre + post)
    || (a == pre + [x] + post && b == pre + [y] + post)
  }

  /** Versions of a text, each one edit away from the one before. */
  ghost predicate IsEditing<T(!new)>(versions: seq<seq<T>>) {
    versions != [] && forall k :: 0 <= k < |versions| - 1 ==> OneEdit(versions[k], versions[k + 1])
  }

  /** A common ending never matters. */
  lemma {:induction false} CommonSuffix<T>(a: seq<T>, b: seq<T>, post: seq<T>)
    ensures Distance(a + post, b + post) <= Distance(a, b)
    decreases |post|
  {
    if post == [] {
      assert a + post == a && b + post == b;
    } else {
      var post' := post[..|post| - 1];
      CommonSuffix(a, b, post');
      assert (a + post)[..|a + post| - 1] == a + post' && (b + post)[..|b + post| - 1] == b + post';
    }
  }

  lemma OneEditIsDistanceOne<T(!new)>(a: seq<T>, b: seq<T>)
    requires OneEdit(a, b)
    ensures Distance(a, b) <= 1
  {
    var pre, post, x, y :| Edited(a, b, pre, post, x, y);
    ZeroExactlyOnEqual(pre, pre);
    assert (pre + [x])[..|pre|] == pre && (pre + [y])[..|pre|] == pre;
    if a == pre + post && b == pre + [y] + post {
      CommonSuffix(pre, pre + [y], post);
    } else if b == pre + post {
      CommonSuffix(pre + [x], pre, post);
    } else {
      CommonSuffix(pre + [x], pre + [y], post);
    }
  }

  /** No sequence of edits is shorter than the distance. */
  lemma {:induction false} NoShorterEditing<T(!new)>(versions: seq<seq<T>>)
    requires IsEditing(versions)
    ensures Distance(versions[0], versions[|versions| - 1]) <= |versions| - 1
    decreases |versions|
  {
    if |versions| == 1 {
      ZeroExactlyOnEqual(versions[0], versions[0]);
    } else {
      var last := |versions| - 1;
      NoShorterEditing(versions[..last]);
      OneEditIsDistanceOne(versions[last - 1], versions[last]);
      Triangle(versions[0], versions[last - 1], versions[last]);
    }
  }

  /** Every version with the same ending. */
  ghost function WithEnding<T>(versions: seq<seq<T>>, ending: seq<T>): seq<seq<T>> {
    seq(|versions|, k requires 0 <= k < |versions| => versions[k] + ending)
  }

  lemma EndingKeepsEditing<T(!new)>(versions: seq<seq<T>>, ending: seq<T>)
    requires IsEditing(versions)
    ensures IsEditing(WithEnding(versions, ending))
  {
    var w := WithEnding(versions, ending);
    forall k | 0 <= k < |w| - 1
      ensures OneEdit(w[k], w[k + 1])
    {
      assert OneEdit(versions[k], versions[k + 1]);
      var pre, post, x, y :| Edited(versions[k], versions[k + 1], pre, post, x, y);
      assert pre + post + ending == pre + (post + ending);
      assert pre + [x] + post + ending == pre + [x] + (post + ending);
      assert pre + [y] + post + ending == pre + [y] + (post + ending);
      assert Edited(w[k], w[k + 1], pre, post + ending, x, y);
    }
  }

  /** Some sequence of edits is exactly as long as the distance. */
  lemma {:induction false} ShortestEditing<T(!new)>(a: seq<T>, b: seq<T>) returns (versions: seq<seq<T>>)
    ensures IsEditing(versions) && versions[0] == a && versions[|versions| - 1] == b
    ensures |versions| - 1 == Distance(a, b)
    decreases |a| + |b|, 1
  {
    if a == [] && b == [] {
      versions := [a];
    } else if b == [] || (a != [] && Distance(a, b) == Distance(a[..|a| - 1], b) + 1) {
      versions := DeleteLast(a, b);
    } else if a == [] || Distance(a, b) == Distance(a, b[..|b| - 1]) + 1 {
      versions := InsertLast(a, b);
    } else {
      versions := ReplaceLast(a, b);
    }
  }

  lemma {:induction false} DeleteLast<T(!new)>(a: seq<T>, b: seq<T>) returns (versions: seq<seq<T>>)
    requires a != []
    ensures IsEditing(versions) && versions[0] == a && versions[|versions| - 1] == b
    ensures |versions| - 1 == Distance(a[..|a| - 1], b) + 1
    decreases |a| + |b|, 0
  {
    var a' := a[..|a| - 1];
    var rest := ShortestEditing(a', b);
    assert Edited(a, a', a', [], a[|a| - 1], a[|a| - 1]);
    versions := [a] + rest;
  }

  lemma {:induction false} InsertLast<T(!new)>(a: seq<T>, b: seq<T>) returns (versions: seq<seq<T>>)
    requires b != []
    ensures IsEditing(versions) && versions[0] == a && versions[|versions| - 1] == b
    ensures |versions| - 1 == Distance(a, b[..|b| - 1]) + 1
    decreases |a| + |b|, 0
  {
    var b' := b[..|b| - 1];
    var rest := ShortestEditing(a, b');
    assert Edited(b', b, b', [], b[|b| - 1], b[|b| - 1]);
    versions := rest + [b];
  }

  lemma {:induction false} ReplaceLast<T(!new)>(a: seq<T>, b: seq<T>) returns (versions: seq<seq<T>>)
    requires a != [] && b != []
    ensures IsEditing(versions) && versions[0] == a && versions[|versions| - 1] == b
    ensures |versions| - 1 == Distance(a[..|a| - 1], b[..|b| - 1]) + if a[|a| - 1] == b[|b| - 1] then 0 else 1
    decreases |a| + |b|, 0
  {
    var a', b', x, y := a[..|a| - 1], b[..|b| - 1], a[|a| - 1], b[|b| - 1];
    var rest := ShortestEditing(a', b');
    EndingKeepsEditing(rest, [x]);
    versions := WithEnding(rest, [x]);
    if x != y {
      assert Edited(b' + [x], b, b', [], x, y);
      versions := versions + [b];
    }
  }

  // ----- the rate reported for a measured sample

  /** Errors per expected item; a sample with nothing expected counts as perfect. */
  function ErrorRate<T(==)>(expected: seq<T>, produced: seq<T>): real {
    if expected == [] then 0.0 else Distance(expected, produced) as real / |expected| as real
  }

  /** Zero means "reproduced exactly", except that an empty sample is forgiven everything. */
  lemma ErrorRateMeaning<T>(expected: seq<T>, produced: seq<T>)
    ensures ErrorRate(expected, produced) == 0.0 <==> expected == [] || expected == produced
    ensures |produced| <= |expected| ==> ErrorRate(expected, produced) <= 1.0
  {
    ZeroExactlyOnEqual(expected, produced);
    Bounds(expected, produced);
    if expected != [] && |produced| <= |expected| {
      RatioAtMostOne(Distance(expected, produced), |expected|);
    }
  }

  lemma RatioAtMostOne(part: nat, whole: nat)
    requires part <= whole && whole > 0
    ensures part as real / whole as real <= 1.0
  {
    assert part as real <= 1.0 * whole as real;
  }

  lemma RatioTimesWhole(ratio: real, part: nat, whole: nat)
    requires whole > 0 && ratio == part as real / whole as real
    ensures Times(ratio, whole) == part as real
  {
  }

  function Times(ratio: real, whole: nat): real {
    ratio * whole as real
  }

  /** The rate counts the edits of a shortest editing, each as one item of what was expected. */
  lemma ErrorRateCountsEdits<T>(expected: seq<T>, produced: seq<T>)
    requires expected != []
    ensures Times(ErrorRate(expected, produced), |expected|) == Distance(expected, produced) as real
  {
    RatioTimesWhole(ErrorRate(expected, produced), Distance(expected, produced), |expected|);
  }

  /** Of two results for one sample the one with fewer edits has the lower rate. */
  lemma ErrorRatesCompare<T>(expected: seq<T>, one: seq<T>, other: seq<T>)
    requires expected != []
    ensures ErrorRate(expected, one) < ErrorRate(expected, other)
            <==> Distance(expected, one) < Distance(expected, other)
  {
    ErrorRateCountsEdits(expected, one);
    ErrorRateCountsEdits(expected, other);
    ProductsCompare(ErrorRate(expected, one), ErrorRate(expected, other), |expected|, Distance(expected, one),
                    Distance(expected, other));
  }

  lemma PositiveTimes(x: real, factor: real)
    requires x > 0.0 && factor > 0.0
    ensures x * factor > 0.0
  {
  }

  lemma DifferenceTimes(x: real, y: real, factor: real)
    ensures (y - x) * factor == y * factor - x * factor
  {
  }

  lemma LessTimes(x: real, y: real, factor: real)
    requires x < y && factor > 0.0
    ensures x * factor < y * factor
  {
    PositiveTimes(y - x, factor);
    DifferenceTimes(x, y, factor);
  }

  lemma ProductsCompare(x: real, y: real, factor: nat, m: nat, n: nat)
    requires factor > 0 && Times(x, factor) == m as real && Times(y, factor) == n as real
    ensures x < y <==> m < n
  {
    if x < y {
      LessTimes(x, y, factor as real);
    } else if y < x {
      LessTimes(y, x, factor as real);
    }
  }

  /** Nothing at all is wholly wrong. */
  lemma NothingIsWhollyWrong<T>(expected: seq<T>)
    requires expected != []
    ensures ErrorRate(expected, []) == 1.0
  {
    ErrorRateCountsEdits(expected, []);
    TimesOne(ErrorRate(expected, []), |expected|);
  }

  lemma TimesOne(x: real, factor: nat)
    requires factor > 0 && Times(x, factor) == factor as real
    ensures x == 1.0
  {
    if x < 1.0 {
      LessTimes(x, 1.0, factor as real);
    } else if x > 1.0 {
      LessTimes(1.0, x, factor as real);
    }
  }
}
