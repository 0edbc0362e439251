/** Comma-separated name-lists (section 5 of RFC 4251) and the search that key exchange does in them. */
module NameLists {
  import opened Bytes
  import opened Options

  const COMMA: Byte := 44

  /** The position of the first comma, or the length of the text. */
  function Comma(text: seq<Byte>): (c: nat)
    ensures c <= |text| && (c < |text| ==> text[c] == COMMA)
  {
    if text == [] || text[0] == COMMA then 0 else 1 + Comma(text[1..])
  }

  lemma {:induction false} CommaIsFirst(text: seq<Byte>, i: nat)
    requires i < Comma(text)
    ensures text[i] != COMMA
  {
    if i > 0 { CommaIsFirst(text[1..], i - 1); }
  }

  /** The names of a list, in order; an empty text is one empty name. */
  function Split(text: seq<Byte>): (names: seq<seq<Byte>>)
    ensures names != []
    decreases |text|
  {
    var c := Comma(text);
    if c == |text| then [text] else [text[..c]] + Split(text[c + 1..])
  }

  function Join(names: seq<seq<Byte>>): seq<Byte> {
    if names == [] then []
    else if |names| == 1 then names[0]
    else names[0] + [COMMA] + Join(names[1..])
  }

  /** Where name i starts. */
  function Start(names: seq<seq<Byte>>, i: nat): nat
    requires i <= |names|
  {
    if i == 0 then 0 else Start(names, i - 1) + |names[i - 1]| + 1
  }

  predicate Plain(name: seq<Byte>) {
    COMMA !in name && 0 !in name
  }

  /** Where the first occurrence of a name starts. */
  function Find(text: seq<Byte>, name: seq<Byte>): Option<nat>
    decreases |text|
  {
    var c := Comma(text);
    if text[..c] == name then Some(0)
    else if c == |text| then None
    else Shifted(Find(text[c + 1..], name), c + 1)
  }

  function Shifted(r: Option<nat>, steps: nat): Option<nat> {
    match r
    case None => None
    case Some(k) => Some(steps + k)
  }

  // ---------- what the search finds ----------

  lemma {:induction false} CommaOfName(name: seq<Byte>, rest: seq<Byte>)
    requires COMMA !in name
    ensures Comma(name) == |name| && Comma(name + [COMMA] + rest) == |name|
  {
    if name != [] {
      CommaOfName(name[1..], rest);
      assert (name + [COMMA] + rest)[1..] == name[1..] + [COMMA] + rest;
    }
  }

  lemma {:induction false} SplitOfJoin(names: seq<seq<Byte>>)
    requires names != [] && forall i :: 0 <= i < |names| ==> COMMA !in names[i]
    ensures Split(Join(names)) == names
  {
    if |names| == 1 {
      CommaOfName(names[0], []);
    } else {
      var rest := Join(names[1..]);
      CommaOfName(names[0], rest);
      var text := names[0] + [COMMA] + rest;
      assert text[..|names[0]|] == names[0] && text[|names[0]| + 1..] == rest;
      SplitOfJoin(names[1..]);
    }
  }

  lemma JoinCons(name: seq<Byte>, names: seq<seq<Byte>>)
    requires names != []
    ensures Join([name] + names) == name + [COMMA] + Join(names)
  {
    assert ([name] + names)[1..] == names;
  }

  lemma {:induction false} JoinOfSplit(text: seq<Byte>)
    ensures Join(Split(text)) == text
    decreases |text|
  {
    var c := Comma(text);
    if c < |text| {
      var head, rest := text[..c], text[c + 1..];
      JoinOfSplit(rest);
      JoinCons(head, Split(rest));
      Cut(text, c);
      assert Split(text) == [head] + Split(rest);
    }
  }

  lemma Cut(text: seq<Byte>, c: nat)
    requires c < |text| && text[c] == COMMA
    ensures text[..c] + [COMMA] + text[c + 1..] == text
  {
  }

  lemma {:induction false} StartShift(first: seq<Byte>, names: seq<seq<Byte>>, i: nat)
    requires i <= |names|
    ensures Start([first] + names, i + 1) == |first| + 1 + Start(names, i)
  {
    if i > 0 { StartShift(first, names, i - 1); }
  }

  /** Name i is the first occurrence of `name`. */
  ghost predicate FirstAt(names: seq<seq<Byte>>, name: seq<Byte>, i: nat) {
    i < |names| && names[i] == name && forall j :: 0 <= j < i ==> names[j] != name
  }

  lemma FirstAtShift(first: seq<Byte>, rest: seq<seq<Byte>>, name: seq<Byte>, i: nat)
    requires first != name && FirstAt(rest, name, i)
    ensures FirstAt([first] + rest, name, i + 1)
  {
  }

  /** What the search for a name comes to: it is not there, or it is first at position i. */
  ghost predicate Decides(names: seq<seq<Byte>>, name: seq<Byte>, r: Option<nat>) {
    match r
    case None => name !in names
    case Some(k) => exists i: nat :: FirstAt(names, name, i) && k == Start(names, i)
  }

  lemma DecidesBehind(first: seq<Byte>, rest: seq<seq<Byte>>, name: seq<Byte>, r: Option<nat>)
    requires first != name && Decides(rest, name, r)
    ensures Decides([first] + rest, name, Shifted(r, |first| + 1))
  {
    if r.Some? {
      var i: nat :| FirstAt(rest, name, i) && r.value == Start(rest, i);
      StartShift(first, rest, i);
      FirstAtShift(first, rest, name, i);
      assert |first| + 1 + r.value == Start([first] + rest, i + 1);
    }
  }

  lemma DecidesHere(first: seq<Byte>, names: seq<seq<Byte>>)
    requires names != [] && names[0] == first
    ensures Decides(names, first, Some(0))
  {
    assert FirstAt(names, first, 0) && Start(names, 0) == 0;
  }

  /** The search succeeds exactly for the names of the list, and yields the start of the first of them. */
  lemma {:induction false} FindDecides(text: seq<Byte>, name: seq<Byte>)
    ensures Decides(Split(text), name, Find(text, name))
    decreases |text|
  {
    var c := Comma(text);
    if c == |text| { assert text[..c] == text; }
    if text[..c] == name {
      DecidesHere(name, Split(text));
    } else if c < |text| {
      var rest := text[c + 1..];
      FindDecides(rest, name);
      DecidesBehind(text[..c], Split(rest), name, Find(rest, name));
    }
  }

  lemma FirstNameAtZero(text: seq<Byte>, name: seq<Byte>)
    ensures Find(text, name) == Some(0) <==> Split(text)[0] == name
  {
    var c := Comma(text);
    if c == |text| { assert text[..c] == text; }
  }

  /** A text shorter than the name cannot hold it. */
  lemma {:induction false} TooShort(text: seq<Byte>, name: seq<Byte>)
    requires |text| < |name|
    ensures Find(text, name) == None
    decreases |text|
  {
    if Comma(text) < |text| { TooShort(text[Comma(text) + 1..], name); }
  }

  // ---------- the search as the source does it ----------

  /** What string functions see of a text: it ends with the first zero in it, if there is one. */
  function CString(text: seq<Byte>): (s: seq<Byte>)
    ensures |s| <= |text|
  {
    if text == [] then [] else if text[0] == 0 then [0] else [text[0]] + CString(text[1..])
  }

  /** The first zero of the memory is at z, not behind position n. */
  ghost predicate ZeroAt(mem: seq<Byte>, z: nat, n: nat) {
    z <= n < |mem| && mem[z] == 0 && 0 !in mem[..z]
  }

  /** Where the text of n bytes ends for string functions: at n, or behind a zero before that. */
  function EndOf(z: nat, n: nat): nat {
    if z == n then n else z + 1
  }

  lemma {:induction false} CStringIs(text: seq<Byte>, z: nat)
    requires z <= |text| && 0 !in text[..z] && (z < |text| ==> text[z] == 0)
    ensures CString(text) == if z == |text| then text else text[..z + 1]
  {
    if text != [] {
      if z == 0 {
        assert text[..1] == [0];
      } else {
        assert text[0] in text[..z] && text[1..][..z - 1] == text[..z][1..];
        CStringIs(text[1..], z - 1);
        if z < |text| { assert text[..z + 1] == [text[0]] + text[1..][..z]; }
      }
    }
  }

  lemma {:induction false} FirstZero(mem: seq<Byte>, n: nat) returns (z: nat)
    requires n < |mem| && mem[n] == 0
    ensures ZeroAt(mem, z, n) && CString(mem[..n]) == mem[..EndOf(z, n)]
  {
    z := 0;
    while mem[z] != 0
      invariant z <= n && 0 !in mem[..z]
      decreases n - z
    {
      z := z + 1;
    }
    assert mem[..n][..z] == mem[..z];
    CStringIs(mem[..n], z);
    if z < n { assert mem[..n][..z + 1] == mem[..z + 1]; }
  }

  /** strncmp over the length of a needle without zeros, where `mem` is terminated. */
  predicate StartsWith(mem: seq<Byte>, at: nat, needle: seq<Byte>) {
    at + |needle| <= |mem| && mem[at..at + |needle|] == needle
  }

  /** strchr for a comma from `at` on: its position, or the terminating zero's. */
  method StrChr(mem: seq<Byte>, at: nat, ghost z: nat) returns (p: nat)
    requires at <= z < |mem| && mem[z] == 0 && 0 !in mem[..z]
    ensures at <= p <= z && p == at + Comma(mem[at..z])
    ensures p == z <==> mem[p] == 0
  {
    p := at;
    while mem[p] != COMMA && mem[p] != 0
      invariant at <= p <= z
      invariant p - at + Comma(mem[p..z]) == Comma(mem[at..z])
      decreases z - p
    {
      assert mem[p..z][1..] == mem[p + 1..z];
      p := p + 1;
    }
    if p < z { assert mem[..z][p] != 0; }
  }

  /** The name that starts at s, the comma or the end behind it, and what the search from s on finds. */
  function NameFrom(mem: seq<Byte>, s: nat, e: nat): seq<Byte>
    requires s <= e <= |mem|
  {
    mem[s..e][..Comma(mem[s..e])]
  }

  function FindFrom(mem: seq<Byte>, s: nat, e: nat, needle: seq<Byte>): Option<nat>
    requires s <= e <= |mem|
  {
    Shifted(Find(mem[s..e], needle), s)
  }

  predicate Here(mem: seq<Byte>, s: nat, n: nat, needle: seq<Byte>)
    requires n < |mem|
  {
    StartsWith(mem, s, needle) && (s + |needle| == n || (s + |needle| < |mem| && mem[s + |needle|] == COMMA))
  }

  lemma {:induction false} CommaAtMost(text: seq<Byte>, i: nat)
    requires i < |text| && text[i] == COMMA
    ensures Comma(text) <= i
  {
    if Comma(text) > i { CommaIsFirst(text, i); }
  }

  /** The text from one position on starts with this name. */
  lemma {:induction false} NameHere(mem: seq<Byte>, at: nat, z: nat, n: nat, needle: seq<Byte>)
    requires ZeroAt(mem, z, n) && at <= z && Plain(needle)
    ensures Here(mem, at, n, needle) <==> NameFrom(mem, at, EndOf(z, n)) == needle
  {
    var e, m := EndOf(z, n), |needle|;
    var text := mem[at..e];
    var c := Comma(text);
    if StartsWith(mem, at, needle) {
      forall j | at <= j < at + m ensures mem[j] != 0 && mem[j] != COMMA { assert mem[j] == needle[j - at]; }
      assert at + m <= z && text[..m] == needle;
      assert c < |text| ==> mem[at + c] == COMMA;
      if m < |text| && text[m] == COMMA { CommaAtMost(text, m); }
    }
    if text[..c] == needle {
      assert mem[at..at + m] == text[..c];
      assert z < n ==> text[|text| - 1] == 0 && text[..|text|] == text;
    }
  }

  lemma {:induction false} FindHits(mem: seq<Byte>, s: nat, e: nat, needle: seq<Byte>)
    requires s <= e <= |mem| && NameFrom(mem, s, e) == needle
    ensures FindFrom(mem, s, e, needle) == Some(s)
  {
  }

  /** The name at s is not the one looked for; the search goes on behind its comma, if any. */
  lemma {:induction false} FindSkips(mem: seq<Byte>, s: nat, e: nat, needle: seq<Byte>, p: nat)
    requires s <= e <= |mem| && NameFrom(mem, s, e) != needle && p == s + Comma(mem[s..e])
    ensures p <= e
    ensures FindFrom(mem, s, e, needle) == if p == e then None else FindFrom(mem, p + 1, e, needle)
  {
    if p < e { assert mem[s..e][p - s + 1..] == mem[p + 1..e]; }
  }

  lemma {:induction false} FindTooShort(mem: seq<Byte>, s: nat, e: nat, needle: seq<Byte>)
    requires s <= e <= |mem| && e - s < |needle|
    ensures FindFrom(mem, s, e, needle) == None
  {
    TooShort(mem[s..e], needle);
  }

  /** The next comma before the zero, or none before the end. */
  lemma {:induction false} CommaBeforeZero(mem: seq<Byte>, s: nat, z: nat, n: nat)
    requires ZeroAt(mem, z, n) && s <= z
    ensures var c := Comma(mem[s..z]);
            Comma(mem[s..EndOf(z, n)]) == if c < z - s then c else EndOf(z, n) - s
  {
    if z < n { CommaThenZero(mem[s..z], mem[s..z + 1]); }
  }

  lemma {:induction false} CommaThenZero(text: seq<Byte>, more: seq<Byte>)
    requires more == text + [0]
    ensures Comma(more) == if Comma(text) < |text| then Comma(text) else |text| + 1
  {
    if text == [] {
      assert Comma([0][1..]) == 0;
    } else {
      assert more[1..] == text[1..] + [0];
      CommaThenZero(text[1..], more[1..]);
    }
  }

  /** `libssh2_kex_agree_instr` over the first n bytes of `mem`, which a zero byte follows.  A zero among those
      bytes ends the list early, and then the name before it does not count. */
  method AgreeInstr(mem: seq<Byte>, n: nat, needle: seq<Byte>) returns (r: Option<nat>)
    requires n < |mem| && mem[n] == 0 && Plain(needle)
    ensures r == Find(CString(mem[..n]), needle)
  {
    ghost var z := FirstZero(mem, n);
    assert mem[0..EndOf(z, n)] == mem[..EndOf(z, n)];
    assert FindFrom(mem, 0, EndOf(z, n), needle) == Find(mem[..EndOf(z, n)], needle);
    r := Search(mem, z, n, needle);
  }

  /** What is to be found from s on is what is to be found in all. */
  ghost predicate Searching(mem: seq<Byte>, s: nat, z: nat, n: nat, needle: seq<Byte>, goal: Option<nat>) {
    ZeroAt(mem, z, n) && s <= z && FindFrom(mem, s, EndOf(z, n), needle) == goal
  }

  /** Looks at the name that starts at s. */
  method Looks(mem: seq<Byte>, s: nat, ghost z: nat, n: nat, needle: seq<Byte>, ghost goal: Option<nat>)
    returns (here: bool)
    requires Searching(mem, s, z, n, needle, goal) && Plain(needle)
    ensures here == (NameFrom(mem, s, EndOf(z, n)) == needle)
    ensures here ==> goal == Some(s)
  {
    here := StartsWith(mem, s, needle) && (s + |needle| == n || mem[s + |needle|] == COMMA);
    NameHere(mem, s, z, n, needle);
    if here { FindHits(mem, s, EndOf(z, n), needle); }
  }

  lemma {:induction false} SkipsTo(mem: seq<Byte>, s: nat, z: nat, n: nat, needle: seq<Byte>, p: nat)
    requires ZeroAt(mem, z, n) && s <= z && p == s + Comma(mem[s..z]) && NameFrom(mem, s, EndOf(z, n)) != needle
    ensures p <= z
    ensures FindFrom(mem, s, EndOf(z, n), needle) == if p == z then None else FindFrom(mem, p + 1, EndOf(z, n), needle)
  {
    CommaBeforeZero(mem, s, z, n);
    FindSkips(mem, s, EndOf(z, n), needle, s + Comma(mem[s..EndOf(z, n)]));
  }

  /** Moves on behind the next comma, if the rest can hold the name. */
  method MovesOn(mem: seq<Byte>, s: nat, ghost z: nat, n: nat, needle: seq<Byte>, ghost goal: Option<nat>)
    returns (next: Option<nat>)
    requires Searching(mem, s, z, n, needle, goal) && NameFrom(mem, s, EndOf(z, n)) != needle
    ensures next == None ==> goal == None
    ensures next.Some? ==> next.value > s && Searching(mem, next.value, z, n, needle, goal)
  {
    var p := StrChr(mem, s, z);
    SkipsTo(mem, s, z, n, needle, p);
    if mem[p] == 0 { return None; }
    if n - p <= |needle| {
      FindTooShort(mem, p + 1, EndOf(z, n), needle);
      return None;
    }
    next := Some(p + 1);
  }

  method Search(mem: seq<Byte>, ghost z: nat, n: nat, needle: seq<Byte>) returns (r: Option<nat>)
    requires ZeroAt(mem, z, n) && Plain(needle)
    ensures r == FindFrom(mem, 0, EndOf(z, n), needle)
  {
    if n < |needle| {
      FindTooShort(mem, 0, EndOf(z, n), needle);
      return None;
    }
    ghost var goal := FindFrom(mem, 0, EndOf(z, n), needle);
    var here := Looks(mem, 0, z, n, needle, goal);
    var s := 0;
    while !here
      invariant Searching(mem, s, z, n, needle, goal)
      invariant here == (NameFrom(mem, s, EndOf(z, n)) == needle) && (here ==> goal == Some(s))
      decreases n - s
    {
      var next := MovesOn(mem, s, z, n, needle, goal);
      if next == None { return None; }
      s := next.value;
      here := Looks(mem, s, z, n, needle, goal);
    }
    r := Some(s);
  }
}
