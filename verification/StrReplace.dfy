/** Replacing every occurrence of a pattern in a string, in place. */
module StrReplace {
  import opened Options

  predicate At(text: string, pattern: string, i: nat) {
    i + |pattern| <= |text| && text[i..i + |pattern|] == pattern
  }

  /** `string::find`: where the pattern first occurs. */
  function Find(text: string, pattern: string): (r: Option<nat>)
    ensures r.Some? ==> r.value + |pattern| <= |text|
  {
    FindFrom(text, pattern, 0)
  }

  function FindFrom(text: string, pattern: string, i: nat): (r: Option<nat>)
    ensures r.Some? ==> r.value + |pattern| <= |text|
    decreases |text| - i
  {
    if At(text, pattern, i) then Some(i) else if i >= |text| then None else FindFrom(text, pattern, i + 1)
  }

  ghost predicate NowhereBefore(text: string, pattern: string, n: nat) {
    forall j :: 0 <= j < n ==> !At(text, pattern, j)
  }

  /** What is found is the first occurrence, and nothing is found only if there is none. */
  ghost predicate First(text: string, pattern: string, r: Option<nat>) {
    if r.Some? then At(text, pattern, r.value) && NowhereBefore(text, pattern, r.value)
    else NowhereBefore(text, pattern, |text| + 1)
  }

  lemma {:induction false} FindFromIsFirst(text: string, pattern: string, i: nat)
    requires i <= |text| && NowhereBefore(text, pattern, i)
    ensures First(text, pattern, FindFrom(text, pattern, i))
    decreases |text| - i
  {
    if !At(text, pattern, i) && i < |text| { FindFromIsFirst(text, pattern, i + 1); }
  }

  lemma {:induction false} FindIsFirst(text: string, pattern: string)
    ensures First(text, pattern, Find(text, pattern))
  {
    FindFromIsFirst(text, pattern, 0);
  }

  /** The text with the occurrences replaced that a scan from left to right meets, each behind the one before. */
  function Replaced(text: string, pattern: string, rep: string): string
    requires pattern != []
    decreases |text|
  {
    match Find(text, pattern)
    case None => text
    case Some(i) => text[..i] + rep + Replaced(text[i + |pattern|..], pattern, rep)
  }

  // ---------- what replacement is ----------

  /** Pieces with a separator between them. */
  function Join(pieces: seq<string>, separator: string): string
    requires pieces != []
  {
    if |pieces| == 1 then pieces[0] else pieces[0] + separator + Join(pieces[1..], separator)
  }

  /** These are the pieces between the occurrences met from left to right: in a piece with the pattern behind
      it the pattern is nowhere before the end, and in the last piece nowhere at all. */
  ghost predicate Between(pieces: seq<string>, pattern: string) {
    && pieces != []
    && (forall k :: 0 <= k < |pieces| - 1 ==> Find(pieces[k] + pattern, pattern) == Some(|pieces[k]|))
    && Find(pieces[|pieces| - 1], pattern) == None
  }

  lemma {:induction false} AtFront(front: string, back: string, pattern: string, j: nat)
    requires j + |pattern| <= |front|
    ensures At(front + back, pattern, j) <==> At(front, pattern, j)
  {
    assert (front + back)[j..j + |pattern|] == front[j..j + |pattern|];
  }

  lemma {:induction false} FindIs(text: string, pattern: string, i: nat)
    requires At(text, pattern, i) && NowhereBefore(text, pattern, i)
    ensures Find(text, pattern) == Some(i)
  {
    FindIsFirst(text, pattern);
    var r := Find(text, pattern);
    assert r.Some? ==> !(r.value < i) && !(i < r.value);
  }

  /** What is behind the first occurrence does not matter to finding it. */
  lemma {:induction false} FindInFront(piece: string, pattern: string, back: string)
    ensures Find(piece + pattern, pattern) == Some(|piece|) <==> Find(piece + pattern + back, pattern) == Some(|piece|)
  {
    var front := piece + pattern;
    forall j | 0 <= j <= |piece| ensures At(front + back, pattern, j) <==> At(front, pattern, j) {
      AtFront(front, back, pattern, j);
    }
    FindIsFirst(front, pattern);
    FindIsFirst(front + back, pattern);
    if Find(front, pattern) == Some(|piece|) { FindIs(front + back, pattern, |piece|); }
    if Find(front + back, pattern) == Some(|piece|) { FindIs(front, pattern, |piece|); }
  }

  /** Whatever is cut at such occurrences has its separators replaced, and nothing else. */
  lemma {:induction false} ReplacedOfJoin(pieces: seq<string>, pattern: string, rep: string)
    requires pattern != [] && Between(pieces, pattern)
    ensures Replaced(Join(pieces, pattern), pattern, rep) == Join(pieces, rep)
    decreases |pieces|
  {
    if |pieces| > 1 {
      var piece, rest := pieces[0], pieces[1..];
      var back := Join(rest, pattern);
      var text := piece + pattern + back;
      FindInFront(piece, pattern, back);
      assert text[..|piece|] == piece && text[|piece| + |pattern|..] == back;
      assert forall k :: 0 <= k < |rest| ==> rest[k] == pieces[k + 1];
      ReplacedOfJoin(rest, pattern, rep);
    }
  }

  lemma {:induction false} BetweenCons(piece: string, rest: seq<string>, pattern: string)
    requires Between(rest, pattern) && Find(piece + pattern, pattern) == Some(|piece|)
    ensures Between([piece] + rest, pattern)
    ensures Join([piece] + rest, pattern) == piece + pattern + Join(rest, pattern)
  {
    var pieces := [piece] + rest;
    assert pieces[1..] == rest;
    forall k | 0 <= k < |pieces| - 1 ensures Find(pieces[k] + pattern, pattern) == Some(|pieces[k]|) {
      if k > 0 { assert pieces[k] == rest[k - 1]; }
    }
  }

  lemma {:induction false} CutOut(text: string, i: nat, pattern: string)
    requires At(text, pattern, i)
    ensures text == text[..i] + pattern + text[i + |pattern|..]
  {
  }

  /** Every text can be cut so, in one way only. */
  lemma {:induction false} CutExists(text: string, pattern: string) returns (pieces: seq<string>)
    requires pattern != []
    ensures Between(pieces, pattern) && Join(pieces, pattern) == text
    decreases |text|
  {
    var r := Find(text, pattern);
    if r.None? {
      pieces := [text];
    } else {
      var piece, back := text[..r.value], text[r.value + |pattern|..];
      FindIsFirst(text, pattern);
      CutOut(text, r.value, pattern);
      FindInFront(piece, pattern, back);
      var rest := CutExists(back, pattern);
      BetweenCons(piece, rest, pattern);
      pieces := [piece] + rest;
    }
  }

  lemma {:induction false} CutIsUnique(p: seq<string>, q: seq<string>, pattern: string)
    requires pattern != [] && Between(p, pattern) && Between(q, pattern) && Join(p, pattern) == Join(q, pattern)
    ensures p == q
    decreases |p|
  {
    if |p| > 1 { FindInFront(p[0], pattern, Join(p[1..], pattern)); }
    if |q| > 1 { FindInFront(q[0], pattern, Join(q[1..], pattern)); }
    assert (|p| > 1) == (|q| > 1);
    if |p| > 1 {
      assert |p[0]| == |q[0]|;
      SameHead(p[0], pattern, Join(p[1..], pattern), q[0], Join(q[1..], pattern));
      TailBetween(p, pattern);
      TailBetween(q, pattern);
      CutIsUnique(p[1..], q[1..], pattern);
      assert p == [p[0]] + p[1..] && q == [q[0]] + q[1..];
    }
  }

  lemma {:induction false} TailBetween(p: seq<string>, pattern: string)
    requires |p| > 1 && Between(p, pattern)
    ensures Between(p[1..], pattern)
  {
    assert forall k :: 0 <= k < |p[1..]| ==> p[1..][k] == p[k + 1];
  }

  lemma {:induction false} SameHead(a: string, pattern: string, x: string, b: string, y: string)
    requires |a| == |b| && a + pattern + x == b + pattern + y
    ensures a == b && x == y
  {
    var s, t := a + pattern + x, b + pattern + y;
    assert a == s[..|a|] && b == t[..|a|];
    assert x == s[|a| + |pattern|..] && y == t[|a| + |pattern|..];
  }

  // ---------- the source's loop ----------

  /** Of this text the part before i is done; with the rest replaced it comes to `goal`. */
  ghost predicate Working(text: string, i: nat, pattern: string, rep: string, goal: string)
    requires pattern != []
  {
    i <= |text| && Comes(text[..i], text[i..], pattern, rep, goal)
  }

  ghost predicate Comes(done: string, rest: string, pattern: string, rep: string, goal: string)
    requires pattern != []
  {
    done + Replaced(rest, pattern, rep) == goal
  }

  lemma {:induction false} ReplacedHere(rest: string, j: nat, pattern: string, rep: string)
    requires pattern != [] && Find(rest, pattern) == Some(j)
    ensures j + |pattern| <= |rest|
    ensures Replaced(rest, pattern, rep) == rest[..j] + rep + Replaced(rest[j + |pattern|..], pattern, rep)
  {
  }

  lemma {:induction false} Regroup(a: string, b: string, c: string, d: string)
    ensures a + (b + c + d) == a + b + c + d
  {
  }

  /** `string::replace`: n characters at i give way to others. */
  function Spliced(text: string, i: nat, n: nat, rep: string): string
    requires i + n <= |text|
  {
    text[..i] + rep + text[i + n..]
  }

  lemma {:induction false} SplicedAt(text: string, i: nat, j: nat, n: nat, rep: string)
    requires i + j + n <= |text|
    ensures var next := Spliced(text, i + j, n, rep);
            && i + j + |rep| <= |next|
            && next[..i + j + |rep|] == text[..i] + text[i..][..j] + rep
            && next[i + j + |rep|..] == text[i..][j + n..]
            && |next[i + j + |rep|..]| == |text| - i - j - n
  {
    assert text[..i + j] == text[..i] + text[i..][..j];
    assert text[i + j + n..] == text[i..][j + n..];
  }

  lemma {:induction false} ComesStep(done: string, rest: string, j: nat, pattern: string, rep: string, goal: string)
    requires pattern != [] && Comes(done, rest, pattern, rep, goal) && Find(rest, pattern) == Some(j)
    ensures Comes(done + rest[..j] + rep, rest[j + |pattern|..], pattern, rep, goal)
  {
    ReplacedHere(rest, j, pattern, rep);
    Regroup(done, rest[..j], rep, Replaced(rest[j + |pattern|..], pattern, rep));
  }

  /** Replacing the occurrence j places behind i and moving behind the replacement. */
  lemma {:induction false} WorkStep(text: string, i: nat, j: nat, pattern: string, rep: string, goal: string)
    requires pattern != [] && Working(text, i, pattern, rep, goal) && Find(text[i..], pattern) == Some(j)
    ensures i + j + |pattern| <= |text|
    ensures var next := Spliced(text, i + j, |pattern|, rep);
            Working(next, i + j + |rep|, pattern, rep, goal) && |next| - (i + j + |rep|) < |text| - i
  {
    ComesStep(text[..i], text[i..], j, pattern, rep, goal);
    SplicedAt(text, i, j, |pattern|, rep);
  }

  lemma {:induction false} WorkEnds(text: string, i: nat, pattern: string, rep: string, goal: string)
    requires pattern != [] && Working(text, i, pattern, rep, goal) && Find(text[i..], pattern) == None
    ensures text == goal
  {
  }

  lemma {:induction false} WorkStarts(text: string, pattern: string, rep: string)
    requires pattern != []
    ensures Working(text, 0, pattern, rep, Replaced(text, pattern, rep))
  {
    assert text[0..] == text;
    assert [] + Replaced(text, pattern, rep) == Replaced(text, pattern, rep);
  }

  /** The pattern comes first at i, or nowhere, in what is left to do. */
  ghost predicate Next(text: string, from: nat, pattern: string, rep: string, goal: string, found: bool, i: nat)
    requires pattern != []
  {
    && Working(text, from, pattern, rep, goal)
    && if found then i >= from && Find(text[from..], pattern) == Some(i - from) else text == goal
  }

  /** `rest.find`: where to go on from i. */
  method Search(text: string, i: nat, pattern: string, ghost rep: string, ghost goal: string)
    returns (found: bool, at: nat)
    requires pattern != [] && Working(text, i, pattern, rep, goal)
    ensures Next(text, i, pattern, rep, goal, found, at)
  {
    var rest := text[i..];
    var j := Find(rest, pattern);
    found := j.Some?;
    if found {
      at := i + j.value;
    } else {
      at := i;
      WorkEnds(text, i, pattern, rep, goal);
    }
  }

  /** Replaces the occurrence at i and looks for the next one. */
  method Turn(text: string, i: nat, pattern: string, rep: string, ghost from: nat, ghost goal: string)
    returns (next: string, found: bool, at: nat)
    requires pattern != [] && Next(text, from, pattern, rep, goal, true, i)
    ensures Next(next, i + |rep|, pattern, rep, goal, found, at)
    ensures from <= |text| && i + |rep| <= |next| && |next| - (i + |rep|) < |text| - from
  {
    WorkStep(text, from, i - from, pattern, rep, goal);
    next := Spliced(text, i, |pattern|, rep);
    found, at := Search(next, i + |rep|, pattern, rep, goal);
  }

  /** `strreplace`: it ends because what is left to search shrinks, also when the replacement holds the
      pattern. */
  method StrReplace(text: string, pattern: string, rep: string) returns (r: string)
    requires pattern != []
    ensures r == Replaced(text, pattern, rep)
  {
    WorkStarts(text, pattern, rep);
    r := ReplaceFrom(text, pattern, rep, Replaced(text, pattern, rep));
  }

  method ReplaceFrom(text: string, pattern: string, rep: string, ghost goal: string) returns (r: string)
    requires pattern != [] && Working(text, 0, pattern, rep, goal)
    ensures r == goal
  {
    r := text;
    var found: bool, i: nat := Search(r, 0, pattern, rep, goal);
    ghost var from: nat := 0;
    while found
      invariant Next(r, from, pattern, rep, goal, found, i)
      decreases |r| - from
    {
      ghost var j := i;
      r, found, i := Turn(r, i, pattern, rep, from, goal);
      from := j + |rep|;
    }
  }

  // ---------- doubling percent signs ----------

  /** Reading pairs of percent signs as one. */
  function Collapsed(text: string): string {
    if |text| >= 2 && text[0] == '%' && text[1] == '%' then "%" + Collapsed(text[2..])
    else if text == [] then []
    else [text[0]] + Collapsed(text[1..])
  }

  /** A text without percent signs in front is not collapsed there. */
  lemma {:induction false} CollapsedBehind(front: string, back: string)
    requires '%' !in front
    ensures Collapsed(front + back) == front + Collapsed(back)
  {
    if front == [] {
      assert front + back == back;
    } else {
      assert (front + back)[1..] == front[1..] + back;
      CollapsedBehind(front[1..], back);
    }
  }

  lemma {:induction false} AtPercent(text: string, j: nat)
    requires j < |text|
    ensures At(text, "%", j) <==> text[j] == '%'
  {
    assert text[j..j + 1] == [text[j]];
  }

  lemma {:induction false} NoPercent(text: string, n: nat)
    requires n <= |text| && NowhereBefore(text, "%", n)
    ensures '%' !in text[..n]
  {
    forall j | 0 <= j < n ensures text[j] != '%' { AtPercent(text, j); }
  }

  /** A text without percent signs, a doubled one, and a text that collapses to `back`. */
  lemma {:induction false} CollapsedPair(front: string, more: string, back: string)
    requires '%' !in front && Collapsed(more) == back
    ensures Collapsed(front + "%%" + more) == front + "%" + back
  {
    assert ("%%" + more)[2..] == more;
    assert front + "%%" + more == front + ("%%" + more);
    CollapsedBehind(front, "%%" + more);
    assert front + ("%" + back) == front + "%" + back;
  }

  lemma {:induction false} CutAt(text: string, i: nat)
    requires At(text, "%", i)
    ensures text == text[..i] + "%" + text[i + 1..]
  {
    AtPercent(text, i);
  }

  /** Collapsing pairs undoes the doubling of percent signs that module data goes through. */
  lemma {:induction false} CollapseUndoesDoubling(text: string)
    ensures Collapsed(Replaced(text, "%", "%%")) == text
    decreases |text|
  {
    var r := Find(text, "%");
    FindIsFirst(text, "%");
    if r.None? {
      NoPercent(text, |text|);
      assert text[..|text|] == text && text + [] == text;
      CollapsedBehind(text, []);
    } else {
      var i := r.value;
      NoPercent(text, i);
      CutAt(text, i);
      CollapseUndoesDoubling(text[i + 1..]);
      CollapsedPair(text[..i], Replaced(text[i + 1..], "%", "%%"), text[i + 1..]);
    }
  }

  lemma {:induction false} DoublingIsInjective(s: string, t: string)
    requires Replaced(s, "%", "%%") == Replaced(t, "%", "%%")
    ensures s == t
  {
    CollapseUndoesDoubling(s);
    CollapseUndoesDoubling(t);
  }
}
