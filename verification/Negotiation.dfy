/** Choosing the methods of a key exchange (section 7.1 of RFC 4253) from the server's name-lists. */
module Negotiation {
  import opened Bytes
  import opened Options
  import opened NameLists

  type Name = s: seq<Byte> | Plain(s)

  /** A method of any kind: what a key exchange needs of a host key, and what a host key can do. */
  datatype Method = Method(name: Name, needsEncrypt: bool, needsSign: bool, encrypts: bool, signs: bool)

  /** A name to try, and the method of that name if there is one. */
  datatype Candidate = Candidate(name: Name, entry: Option<Method>)

  predicate On(text: seq<Byte>, name: Name) {
    Find(text, name).Some?
  }

  /** The names of a preference string as the source walks through it: it stops at an empty rest. */
  function Tokens(prefs: Prefs): (names: seq<Name>)
    decreases |prefs|
  {
    if prefs == [] then []
    else
      var c := Comma(prefs);
      TokenPlain(prefs);
      [prefs[..c]] + if c == |prefs| then [] else Tokens(prefs[c + 1..])
  }

  /** A preference string. */
  type Prefs = s: seq<Byte> | 0 !in s

  lemma TokenPlain(prefs: Prefs)
    ensures Plain(prefs[..Comma(prefs)])
  {
    var c := Comma(prefs);
    forall i | 0 <= i < c ensures prefs[..c][i] != COMMA { CommaIsFirst(prefs, i); }
  }

  /** `libssh2_get_method_by_name` */
  function Lookup(table: seq<Method>, name: Name): Option<Method> {
    if table == [] then None else if table[0].name == name then Some(table[0]) else Lookup(table[1..], name)
  }

  /** What is tried in turn: the preferred names, or else the methods in load order. */
  function Candidates(prefs: Option<Prefs>, table: seq<Method>): seq<Candidate> {
    match prefs
    case Some(text) => Preferred(Tokens(text), table)
    case None => InOrder(table)
  }

  function Preferred(names: seq<Name>, table: seq<Method>): seq<Candidate> {
    if names == [] then [] else [Candidate(names[0], Lookup(table, names[0]))] + Preferred(names[1..], table)
  }

  function InOrder(table: seq<Method>): seq<Candidate> {
    if table == [] then [] else [Candidate(table[0].name, Some(table[0]))] + InOrder(table[1..])
  }

  /** The first candidate on the server's list that will do; a name there that is no method ends the search. */
  function Pick(cs: seq<Candidate>, text: seq<Byte>, willDo: Method -> bool): Option<Method> {
    if cs == [] then None
    else if !On(text, cs[0].name) then Pick(cs[1..], text, willDo)
    else match cs[0].entry
         case None => None
         case Some(m) => if willDo(m) then Some(m) else Pick(cs[1..], text, willDo)
  }

  /** Whether a host key can do what a key exchange needs. */
  predicate Suits(kex: Method, hostkey: Method) {
    (kex.needsEncrypt ==> hostkey.encrypts) && (kex.needsSign ==> hostkey.signs)
  }

  function SuitsKex(kex: Method): Method -> bool {
    h => Suits(kex, h)
  }

  function Anything(): Method -> bool {
    m => true
  }

  function PickHostkey(cs: seq<Candidate>, text: seq<Byte>, kex: Method): Option<Method> {
    Pick(cs, text, SuitsKex(kex))
  }

  /** A key exchange will do when some host key on the server's list suits it. */
  function HasHostkey(hostkeys: seq<Candidate>, hostText: seq<Byte>): Method -> bool {
    k => PickHostkey(hostkeys, hostText, k).Some?
  }

  function PickKex(cs: seq<Candidate>, text: seq<Byte>, hostkeys: seq<Candidate>, hostText: seq<Byte>): Option<Method> {
    Pick(cs, text, HasHostkey(hostkeys, hostText))
  }

  // ---------- what is picked ----------

  /** The search ends at this candidate. */
  predicate Decisive(c: Candidate, text: seq<Byte>, willDo: Method -> bool) {
    On(text, c.name) && (c.entry.None? || willDo(c.entry.value))
  }

  ghost predicate FirstDecisive(cs: seq<Candidate>, i: nat, text: seq<Byte>, willDo: Method -> bool) {
    && i < |cs| && Decisive(cs[i], text, willDo)
    && forall j :: 0 <= j < i ==> !Decisive(cs[j], text, willDo)
  }

  /** The first decisive candidate is what is picked; without one the search fails. */
  lemma {:induction false} PickIsFirstDecisive(cs: seq<Candidate>, text: seq<Byte>, willDo: Method -> bool)
    ensures forall i: nat :: FirstDecisive(cs, i, text, willDo) ==> Pick(cs, text, willDo) == cs[i].entry
    ensures (forall i :: 0 <= i < |cs| ==> !Decisive(cs[i], text, willDo)) ==> Pick(cs, text, willDo) == None
  {
    if cs != [] && !Decisive(cs[0], text, willDo) {
      PickIsFirstDecisive(cs[1..], text, willDo);
      forall i: nat | FirstDecisive(cs, i, text, willDo) ensures Pick(cs, text, willDo) == cs[i].entry {
        assert i > 0 && forall j :: 0 <= j < i - 1 ==> cs[1..][j] == cs[j + 1];
        assert FirstDecisive(cs[1..], i - 1, text, willDo);
      }
      if forall i :: 0 <= i < |cs| ==> !Decisive(cs[i], text, willDo) {
        forall i | 0 <= i < |cs[1..]| ensures !Decisive(cs[1..][i], text, willDo) { assert cs[1..][i] == cs[i + 1]; }
      }
    } else if cs != [] {
      forall i: nat | FirstDecisive(cs, i, text, willDo) ensures i == 0 {}
    }
  }

  ghost predicate AllSupported(cs: seq<Candidate>) {
    forall i :: 0 <= i < |cs| ==> cs[i].entry.Some?
  }

  /** This candidate is on the server's list and will do. */
  predicate Good(c: Candidate, text: seq<Byte>, willDo: Method -> bool) {
    On(text, c.name) && c.entry.Some? && willDo(c.entry.value)
  }

  ghost predicate FirstGood(cs: seq<Candidate>, i: nat, text: seq<Byte>, willDo: Method -> bool) {
    && i < |cs| && Good(cs[i], text, willDo)
    && forall j :: 0 <= j < i ==> !Good(cs[j], text, willDo)
  }

  /** When every preferred name is a method, the client's first name that is on the server's list and will
      do is picked, and the search fails exactly when there is none. */
  lemma {:induction false} PickPrefersClientOrder(cs: seq<Candidate>, text: seq<Byte>, willDo: Method -> bool)
    requires AllSupported(cs)
    ensures forall i: nat :: FirstGood(cs, i, text, willDo) ==> Pick(cs, text, willDo) == cs[i].entry
    ensures Pick(cs, text, willDo) == None <==> forall i :: 0 <= i < |cs| ==> !Good(cs[i], text, willDo)
  {
    PickIsFirstDecisive(cs, text, willDo);
    assert forall i :: 0 <= i < |cs| ==> (Decisive(cs[i], text, willDo) <==> Good(cs[i], text, willDo));
    forall i: nat | FirstGood(cs, i, text, willDo) ensures Pick(cs, text, willDo) == cs[i].entry {
      assert FirstDecisive(cs, i, text, willDo);
    }
    if exists i :: 0 <= i < |cs| && Good(cs[i], text, willDo) {
      var k :| 0 <= k < |cs| && Good(cs[k], text, willDo);
      var i := Least(cs, k, text, willDo);
      assert FirstDecisive(cs, i, text, willDo);
    }
  }

  lemma {:induction false} Least(cs: seq<Candidate>, k: nat, text: seq<Byte>, willDo: Method -> bool) returns (i: nat)
    requires k < |cs| && Good(cs[k], text, willDo)
    ensures i <= k && FirstGood(cs, i, text, willDo)
  {
    i := 0;
    while !Good(cs[i], text, willDo)
      invariant i <= k && forall j :: 0 <= j < i ==> !Good(cs[j], text, willDo)
      decreases k - i
    {
      i := i + 1;
    }
  }

  /** A preferred name that is on the server's list but is no method ends the search. */
  ghost predicate Blocked(cs: seq<Candidate>, i: nat, text: seq<Byte>) {
    exists j :: 0 <= j < i && j < |cs| && On(text, cs[j].name) && cs[j].entry.None?
  }

  /** Without the assumption that every name is a method, the first good candidate is picked exactly when no
      such name comes before it. */
  lemma PickFollowsRuleIff(cs: seq<Candidate>, i: nat, text: seq<Byte>, willDo: Method -> bool)
    requires FirstGood(cs, i, text, willDo)
    ensures Pick(cs, text, willDo) == cs[i].entry <==> !Blocked(cs, i, text)
  {
    PickIsFirstDecisive(cs, text, willDo);
    if Blocked(cs, i, text) {
      var k :| 0 <= k < i && On(text, cs[k].name) && cs[k].entry.None?;
      var j := LeastUnknown(cs, k, text);
      assert FirstDecisive(cs, j, text, willDo);
    } else {
      assert FirstDecisive(cs, i, text, willDo);
    }
  }

  lemma {:induction false} LeastUnknown(cs: seq<Candidate>, k: nat, text: seq<Byte>) returns (i: nat)
    requires k < |cs| && On(text, cs[k].name) && cs[k].entry.None?
    ensures i <= k && On(text, cs[i].name) && cs[i].entry.None?
    ensures forall j :: 0 <= j < i ==> !(On(text, cs[j].name) && cs[j].entry.None?)
  {
    i := 0;
    while !(On(text, cs[i].name) && cs[i].entry.None?)
      invariant i <= k && forall j :: 0 <= j < i ==> !(On(text, cs[j].name) && cs[j].entry.None?)
      decreases k - i
    {
      i := i + 1;
    }
  }

  /** A key exchange that is on the server's list, with a host key there that suits it. */
  ghost predicate GoodKex(c: Candidate, text: seq<Byte>, hostkeys: seq<Candidate>, hostText: seq<Byte>) {
    && On(text, c.name) && c.entry.Some?
    && exists j :: 0 <= j < |hostkeys| && Good(hostkeys[j], hostText, SuitsKex(c.entry.value))
  }

  /** Whatever is picked is on the server's list and will do. */
  lemma {:induction false} PickedIsGood(cs: seq<Candidate>, text: seq<Byte>, willDo: Method -> bool)
    ensures Pick(cs, text, willDo).Some? ==>
              exists i :: 0 <= i < |cs| && Good(cs[i], text, willDo) && cs[i].entry == Pick(cs, text, willDo)
  {
    if cs != [] {
      var picked := Pick(cs, text, willDo);
      if Decisive(cs[0], text, willDo) {
        assert picked.Some? ==> Good(cs[0], text, willDo);
      } else {
        PickedIsGood(cs[1..], text, willDo);
        if picked.Some? {
          var i :| 0 <= i < |cs[1..]| && Good(cs[1..][i], text, willDo) && cs[1..][i].entry == picked;
          assert cs[i + 1] == cs[1..][i];
        }
      }
    }
  }

  /** Without such a key exchange there is no agreement. */
  lemma {:induction false} KexRuleFails(cs: seq<Candidate>, text: seq<Byte>, hostkeys: seq<Candidate>,
                                        hostText: seq<Byte>)
    requires forall j :: 0 <= j < |cs| ==> !GoodKex(cs[j], text, hostkeys, hostText)
    ensures PickKex(cs, text, hostkeys, hostText) == None
  {
    var willDo := HasHostkey(hostkeys, hostText);
    PickedIsGood(cs, text, willDo);
    forall j | 0 <= j < |cs| ensures !Good(cs[j], text, willDo) {
      if On(text, cs[j].name) && cs[j].entry.Some? { PickedIsGood(hostkeys, hostText, SuitsKex(cs[j].entry.value)); }
    }
  }

  /** What a key exchange will do with: the host key search finds some suitable host key, and then the first,
      or is blocked. */
  lemma {:induction false} HostkeyFoundIff(hostkeys: seq<Candidate>, hostText: seq<Byte>, kex: Method, j: nat)
    requires FirstGood(hostkeys, j, hostText, SuitsKex(kex))
    ensures HasHostkey(hostkeys, hostText)(kex) <==> !Blocked(hostkeys, j, hostText)
    ensures !Blocked(hostkeys, j, hostText) ==> PickHostkey(hostkeys, hostText, kex) == hostkeys[j].entry
  {
    var willDo := SuitsKex(kex);
    PickFollowsRuleIff(hostkeys, j, hostText, willDo);
    if Blocked(hostkeys, j, hostText) {
      PickIsFirstDecisive(hostkeys, hostText, willDo);
      var k :| 0 <= k < j && On(hostText, hostkeys[k].name) && hostkeys[k].entry.None?;
      var i := LeastUnknown(hostkeys, k, hostText);
      assert FirstDecisive(hostkeys, i, hostText, willDo);
    }
  }

  /** With any names in the preference strings: the key exchange that section 7.1 asks for, the first with a
      suitable host key, is picked exactly when no unknown name that the server lists comes before it, and none
      before its first suitable host key. */
  lemma {:induction false} KexRuleIff(cs: seq<Candidate>, text: seq<Byte>, hostkeys: seq<Candidate>,
                                      hostText: seq<Byte>, i: nat, j: nat)
    requires i < |cs| && GoodKex(cs[i], text, hostkeys, hostText)
    requires forall k :: 0 <= k < i ==> !GoodKex(cs[k], text, hostkeys, hostText)
    requires FirstGood(hostkeys, j, hostText, SuitsKex(cs[i].entry.value))
    ensures PickKex(cs, text, hostkeys, hostText) == cs[i].entry
            <==> !Blocked(cs, i, text) && !Blocked(hostkeys, j, hostText)
    ensures !Blocked(hostkeys, j, hostText) ==> PickHostkey(hostkeys, hostText, cs[i].entry.value) == hostkeys[j].entry
  {
    var willDo := HasHostkey(hostkeys, hostText);
    var kex := cs[i].entry.value;
    HostkeyFoundIff(hostkeys, hostText, kex, j);
    forall k | 0 <= k < i ensures !Good(cs[k], text, willDo) {
      if On(text, cs[k].name) && cs[k].entry.Some? { PickedIsGood(hostkeys, hostText, SuitsKex(cs[k].entry.value)); }
    }
    if willDo(kex) {
      assert FirstGood(cs, i, text, willDo);
      PickFollowsRuleIff(cs, i, text, willDo);
    } else {
      PickedIsGood(cs, text, willDo);
    }
  }

  /** So when every preferred name is a method, the client's first key exchange on the server's list for which
      some host key on the server's list suits it is picked, and with it the client's first such host key. */
  lemma {:induction false} KexRule(cs: seq<Candidate>, text: seq<Byte>, hostkeys: seq<Candidate>, hostText: seq<Byte>,
                                   i: nat)
    requires AllSupported(cs) && AllSupported(hostkeys)
    requires i < |cs| && GoodKex(cs[i], text, hostkeys, hostText)
    requires forall j :: 0 <= j < i ==> !GoodKex(cs[j], text, hostkeys, hostText)
    ensures PickKex(cs, text, hostkeys, hostText) == cs[i].entry
    ensures exists j: nat :: FirstGood(hostkeys, j, hostText, SuitsKex(cs[i].entry.value))
                             && PickHostkey(hostkeys, hostText, cs[i].entry.value) == hostkeys[j].entry
  {
    var suits := SuitsKex(cs[i].entry.value);
    var k :| 0 <= k < |hostkeys| && Good(hostkeys[k], hostText, suits);
    var j := Least(hostkeys, k, hostText, suits);
    KexRuleIff(cs, text, hostkeys, hostText, i, j);
  }

  /** One unknown host key name sinks every key exchange: the server lists it before a host key that would
      do, the client prefers it, and there is no agreement. */
  lemma {:induction false} UnknownHostkeySinksAll(kex: Method, key: Method, unknown: Name)
    requires Suits(kex, key) && unknown != key.name
    ensures var hostkeys := [Candidate(unknown, None), Candidate(key.name, Some(key))];
            var hostText := Join([unknown, key.name]);
            var cs := [Candidate(kex.name, Some(kex))];
            && GoodKex(cs[0], kex.name, hostkeys, hostText)
            && PickKex(cs, kex.name, hostkeys, hostText) == None
  {
    var hostkeys := [Candidate(unknown, None), Candidate(key.name, Some(key))];
    var hostText := Join([unknown, key.name]);
    var cs := [Candidate(kex.name, Some(kex))];
    ListsBoth(unknown, key.name);
    SplitOfJoin([kex.name]);
    assert Join([kex.name]) == kex.name;
    FindDecides(kex.name, kex.name);
    assert Good(hostkeys[1], hostText, SuitsKex(kex));
    assert GoodKex(cs[0], kex.name, hostkeys, hostText);
    var willDo := HasHostkey(hostkeys, hostText);
    assert !willDo(kex) && cs[1..] == [];
    assert Pick(cs, kex.name, willDo) == Pick(cs[1..], kex.name, willDo) == None;
  }

  lemma {:induction false} ListsBoth(a: Name, b: Name)
    ensures On(Join([a, b]), a) && On(Join([a, b]), b)
  {
    SplitOfJoin([a, b]);
    FindDecides(Join([a, b]), a);
    FindDecides(Join([a, b]), b);
  }

  /** Preferred names are supported when each is the name of a method. */
  lemma {:induction false} PreferredSupported(names: seq<Name>, table: seq<Method>)
    ensures AllSupported(Preferred(names, table)) <==> forall i :: 0 <= i < |names| ==> Lookup(table, names[i]).Some?
  {
    PreferredAt(names, table);
  }

  lemma {:induction false} PreferredAt(names: seq<Name>, table: seq<Method>)
    ensures |Preferred(names, table)| == |names|
    ensures forall i :: 0 <= i < |names| ==> Preferred(names, table)[i] == Candidate(names[i], Lookup(table, names[i]))
  {
    if names != [] { PreferredAt(names[1..], table); }
  }

  lemma {:induction false} InOrderSupported(table: seq<Method>)
    ensures AllSupported(InOrder(table))
  {
    if table != [] {
      InOrderSupported(table[1..]);
      assert InOrder(table)[1..] == InOrder(table[1..]);
      forall i | 0 <= i < |InOrder(table)| ensures InOrder(table)[i].entry.Some? {
        if i > 0 { assert InOrder(table)[i] == InOrder(table[1..])[i - 1]; }
      }
    }
  }

  // ---------- in terms of the names of the lists ----------

  /** Entry k is the first of the table with this name. */
  ghost predicate FirstNamed(table: seq<Method>, name: Name, k: nat) {
    k < |table| && table[k].name == name && forall j :: 0 <= j < k ==> table[j].name != name
  }

  /** Looking a name up yields the first entry of that name, and nothing only when there is none. */
  lemma {:induction false} LookupIsFirst(table: seq<Method>, name: Name)
    ensures Lookup(table, name) == None <==> forall j :: 0 <= j < |table| ==> table[j].name != name
    ensures forall k: nat :: FirstNamed(table, name, k) ==> Lookup(table, name) == Some(table[k])
    ensures Lookup(table, name).Some? ==> exists k: nat :: FirstNamed(table, name, k)
  {
    if table != [] && table[0].name != name {
      var rest := table[1..];
      LookupIsFirst(rest, name);
      assert forall j :: 0 <= j < |rest| ==> rest[j] == table[j + 1];
      assert forall j :: 0 < j < |table| ==> table[j] == rest[j - 1];
      forall k: nat | FirstNamed(table, name, k) ensures Lookup(table, name) == Some(table[k]) {
        assert FirstNamed(rest, name, k - 1);
      }
      if Lookup(table, name).Some? {
        var k: nat :| FirstNamed(rest, name, k);
        assert FirstNamed(table, name, k + 1);
      }
    } else if table != [] {
      assert FirstNamed(table, name, 0);
    }
  }

  lemma {:induction false} OnIff(text: seq<Byte>, name: Name)
    ensures On(text, name) <==> name in Split(text)
  {
    FindDecides(text, name);
  }

  lemma {:induction false} SuitsIff(kex: Method, h: Method)
    ensures SuitsKex(kex)(h) <==> (kex.needsEncrypt ==> h.encrypts) && (kex.needsSign ==> h.signs)
  {
  }

  /** The walk through a preference string meets the names between its commas, but for an empty one at its end. */
  lemma {:induction false} TokensAreSplit(prefs: Prefs)
    ensures Split(prefs) == Tokens(prefs) + if prefs == [] || prefs[|prefs| - 1] == COMMA then [[]] else []
    decreases |prefs|
  {
    var c := Comma(prefs);
    if prefs == [] {
    } else if c == |prefs| {
      CommaIsFirst(prefs, |prefs| - 1);
      assert prefs[..c] == prefs;
    } else {
      TokensAreSplit(prefs[c + 1..]);
      TokenPlain(prefs);
    }
  }

  lemma {:induction false} PreferredIs(names: seq<Name>, table: seq<Method>)
    ensures |Preferred(names, table)| == |names|
    ensures forall i :: 0 <= i < |names| ==>
              Preferred(names, table)[i].name == names[i] && Preferred(names, table)[i].entry == Lookup(table, names[i])
  {
    PreferredAt(names, table);
  }

  /** A name that the search passes over: the server does not list it, or its method will not do. */
  ghost predicate Passed(table: seq<Method>, name: Name, text: seq<Byte>, willDo: Method -> bool) {
    name in Split(text) ==> exists k: nat :: FirstNamed(table, name, k) && !willDo(table[k])
  }

  /** With a preference string, the method agreed on is the first table entry of the first preferred name that
      the server lists and whose method will do, when all names before it are passed over: no unknown name that
      the server lists is among them. */
  lemma {:induction false} PreferenceRule(prefs: Prefs, table: seq<Method>, text: seq<Byte>, willDo: Method -> bool,
                                          i: nat, k: nat)
    requires i < |Tokens(prefs)| && var name := Tokens(prefs)[i];
             name in Split(text) && FirstNamed(table, name, k) && willDo(table[k])
    requires forall j :: 0 <= j < i ==> Passed(table, Tokens(prefs)[j], text, willDo)
    ensures Pick(Candidates(Some(prefs), table), text, willDo) == Some(table[k])
  {
    var names := Tokens(prefs);
    var cs := Preferred(names, table);
    PreferredIs(names, table);
    OnIff(text, names[i]);
    LookupIsFirst(table, names[i]);
    forall j | 0 <= j < i ensures !Decisive(cs[j], text, willDo) { PassedOver(names, table, text, willDo, j); }
    PickIsFirstDecisive(cs, text, willDo);
    assert FirstDecisive(cs, i, text, willDo);
  }

  lemma {:induction false} PassedOver(names: seq<Name>, table: seq<Method>, text: seq<Byte>, willDo: Method -> bool,
                                      j: nat)
    requires j < |names| && Passed(table, names[j], text, willDo)
    ensures |Preferred(names, table)| == |names| && !Decisive(Preferred(names, table)[j], text, willDo)
  {
    PreferredIs(names, table);
    OnIff(text, names[j]);
    LookupIsFirst(table, names[j]);
  }

  /** A preferred name that the server lists and that is no method ends the search in failure, and so does the
      end of the names. */
  lemma {:induction false} PreferenceRuleFails(prefs: Prefs, table: seq<Method>, text: seq<Byte>,
                                               willDo: Method -> bool, i: nat)
    requires i <= |Tokens(prefs)|
    requires i < |Tokens(prefs)| ==>
               Tokens(prefs)[i] in Split(text) && forall j :: 0 <= j < |table| ==> table[j].name != Tokens(prefs)[i]
    requires forall j :: 0 <= j < i ==> Passed(table, Tokens(prefs)[j], text, willDo)
    ensures Pick(Candidates(Some(prefs), table), text, willDo) == None
  {
    var names := Tokens(prefs);
    var cs := Preferred(names, table);
    PreferredIs(names, table);
    forall j | 0 <= j < i ensures !Decisive(cs[j], text, willDo) { PassedOver(names, table, text, willDo, j); }
    PickIsFirstDecisive(cs, text, willDo);
    if i < |names| {
      OnIff(text, names[i]);
      LookupIsFirst(table, names[i]);
      assert FirstDecisive(cs, i, text, willDo);
    }
  }

  lemma {:induction false} InOrderIs(table: seq<Method>)
    ensures |InOrder(table)| == |table|
    ensures forall i :: 0 <= i < |table| ==> InOrder(table)[i] == Candidate(table[i].name, Some(table[i]))
  {
    if table != [] {
      InOrderIs(table[1..]);
      forall i | 0 <= i < |table| ensures InOrder(table)[i] == Candidate(table[i].name, Some(table[i])) {
        if i > 0 { assert InOrder(table)[i] == InOrder(table[1..])[i - 1]; }
      }
    }
  }

  /** Without a preference string it is the first entry of the table that the server lists and that will do. */
  lemma {:induction false} LoadOrderRule(table: seq<Method>, text: seq<Byte>, willDo: Method -> bool, k: nat)
    requires k <= |table| && (k < |table| ==> table[k].name in Split(text) && willDo(table[k]))
    requires forall j :: 0 <= j < k ==> !(table[j].name in Split(text) && willDo(table[j]))
    ensures Pick(Candidates(None, table), text, willDo) == if k < |table| then Some(table[k]) else None
  {
    var cs := InOrder(table);
    InOrderIs(table);
    forall j | 0 <= j < |table|
      ensures Decisive(cs[j], text, willDo) <==> table[j].name in Split(text) && willDo(table[j])
    {
      OnIff(text, table[j].name);
    }
    PickIsFirstDecisive(cs, text, willDo);
    if k < |table| { assert FirstDecisive(cs, k, text, willDo); }
  }
}
