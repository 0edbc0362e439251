/** The agreement functions of a session: loops over preference strings and method tables that store what
    they settle on. */
module KexSessions {
  import opened Bytes
  import opened Options
  import opened NameLists
  import opened Negotiation
  import opened KexInit

  /** A name-list in memory: the byte behind it is zero. */
  ghost predicate Terminated(mem: seq<Byte>, n: nat) {
    n < |mem| && mem[n] == 0
  }

  /** `libssh2_get_method_by_name`: the first entry of the name, and none only if no entry has it. */
  method GetMethodByName(table: seq<Method>, name: Name) returns (r: Option<Method>)
    ensures r == None ==> forall j :: 0 <= j < |table| ==> table[j].name != name
    ensures r.Some? ==> exists i :: 0 <= i < |table| && r == Some(table[i]) && table[i].name == name
                                    && forall j :: 0 <= j < i ==> table[j].name != name
    ensures r == Lookup(table, name)
  {
    LookupIsFirst(table, name);
    var i := 0;
    while i < |table|
      invariant i <= |table| && forall j :: 0 <= j < i ==> table[j].name != name
    {
      if table[i].name == name {
        assert FirstNamed(table, name, i);
        return Some(table[i]);
      }
      i := i + 1;
    }
    r := None;
  }

  // ---------- what is still to be tried ----------

  /** Picking from the names of a preference string from `at` on comes to `goal`. */
  ghost predicate Comes(prefs: Prefs, at: nat, table: seq<Method>, text: seq<Byte>, willDo: Method -> bool,
                        goal: Option<Method>) {
    at <= |prefs| && Pick(Preferred(Tokens(prefs[at..]), table), text, willDo) == goal
  }

  /** Picking from a table from i on comes to `goal`. */
  ghost predicate ComesInOrder(table: seq<Method>, i: nat, text: seq<Byte>, willDo: Method -> bool,
                               goal: Option<Method>) {
    i <= |table| && Pick(InOrder(table[i..]), text, willDo) == goal
  }

  /** This candidate leaves the search at `goal`, or `rest` holds of what is behind it. */
  ghost predicate Leaves(c: Candidate, text: seq<Byte>, willDo: Method -> bool, goal: Option<Method>, rest: bool) {
    if !On(text, c.name) then rest
    else if c.entry.None? then goal == None
    else if willDo(c.entry.value) then goal == c.entry
    else rest
  }

  lemma PickCons(c: Candidate, cs: seq<Candidate>, text: seq<Byte>, willDo: Method -> bool)
    ensures Leaves(c, text, willDo, Pick([c] + cs, text, willDo),
                   Pick([c] + cs, text, willDo) == Pick(cs, text, willDo))
  {
    assert ([c] + cs)[1..] == cs;
  }

  lemma PreferredCons(name: Name, names: seq<Name>, table: seq<Method>)
    ensures Preferred([name] + names, table) == [Candidate(name, Lookup(table, name))] + Preferred(names, table)
  {
    assert ([name] + names)[1..] == names;
  }

  /** What is left behind the name that ends at p. */
  ghost predicate ComesBehind(prefs: Prefs, p: nat, table: seq<Method>, text: seq<Byte>, willDo: Method -> bool,
                              goal: Option<Method>) {
    if p < |prefs| then Comes(prefs, p + 1, table, text, willDo, goal) else goal == None
  }

  lemma TokensCons(first: Prefs, behind: Prefs, rest: Prefs)
    requires rest != [] && |first| == Comma(rest) && first == rest[..|first|]
    requires if |first| < |rest| then behind == rest[|first| + 1..] else behind == []
    ensures Plain(first) && Tokens(rest) == [first] + Tokens(behind)
  {
    TokenPlain(rest);
  }

  /** The names from `at` on are the one that ends at p and those behind it. */
  lemma TokensFrom(prefs: Prefs, at: nat, p: nat)
    requires at < |prefs| && p == at + Comma(prefs[at..])
    ensures p <= |prefs| && Plain(prefs[at..p])
    ensures Tokens(prefs[at..]) == [prefs[at..p]] + Tokens(if p < |prefs| then prefs[p + 1..] else [])
  {
    var rest: Prefs := prefs[at..];
    var first: Prefs := prefs[at..p];
    var behind: Prefs := if p < |prefs| then prefs[p + 1..] else [];
    assert p < |prefs| ==> rest[p - at + 1..] == behind;
    TokensCons(first, behind, rest);
  }

  lemma AtStart(prefs: Prefs, table: seq<Method>, text: seq<Byte>, willDo: Method -> bool)
    ensures Comes(prefs, 0, table, text, willDo, Pick(Preferred(Tokens(prefs), table), text, willDo))
  {
    assert prefs[0..] == prefs;
  }

  lemma AtEnd(prefs: Prefs, at: nat, table: seq<Method>, text: seq<Byte>, willDo: Method -> bool, goal: Option<Method>)
    requires Comes(prefs, at, table, text, willDo, goal) && at >= |prefs|
    ensures goal == None
  {
    assert prefs[at..] == [];
  }

  /** One turn of the walk through a preference string. */
  lemma PickStep(prefs: Prefs, at: nat, p: nat, table: seq<Method>, text: seq<Byte>, willDo: Method -> bool,
                 goal: Option<Method>)
    requires at < |prefs| && p == at + Comma(prefs[at..]) && Comes(prefs, at, table, text, willDo, goal)
    ensures p <= |prefs| && Plain(prefs[at..p])
    ensures Leaves(Candidate(prefs[at..p], Lookup(table, prefs[at..p])), text, willDo, goal,
                   ComesBehind(prefs, p, table, text, willDo, goal))
  {
    TokensFrom(prefs, at, p);
    var names := Tokens(if p < |prefs| then prefs[p + 1..] else []);
    PreferredCons(prefs[at..p], names, table);
    PickCons(Candidate(prefs[at..p], Lookup(table, prefs[at..p])), Preferred(names, table), text, willDo);
  }

  lemma InOrderStep(table: seq<Method>, i: nat, text: seq<Byte>, willDo: Method -> bool, goal: Option<Method>)
    requires i < |table| && ComesInOrder(table, i, text, willDo, goal)
    ensures Leaves(Candidate(table[i].name, Some(table[i])), text, willDo, goal,
                   ComesInOrder(table, i + 1, text, willDo, goal))
  {
    assert table[i..][1..] == table[i + 1..];
    PickCons(Candidate(table[i].name, Some(table[i])), InOrder(table[i + 1..]), text, willDo);
  }

  /** The name at `at` in a preference string, and where it ends. */
  method NextToken(prefs: Prefs, at: nat) returns (p: nat, name: Name)
    requires at < |prefs|
    ensures p == at + Comma(prefs[at..]) && p <= |prefs| && name == prefs[at..p]
  {
    var mem := prefs + [0];
    assert mem[..|prefs|] == prefs && mem[at..|prefs|] == prefs[at..];
    p := StrChr(mem, at, |prefs|);
    TokenPlain(prefs[at..]);
    assert prefs[at..][..p - at] == prefs[at..p];
    name := prefs[at..p];
  }

  /** Looks up the name at `at` in the server's list and, when it is there, among the methods. */
  method TryName(prefs: Prefs, at: nat, table: seq<Method>, mem: seq<Byte>, n: nat, ghost willDo: Method -> bool,
                 ghost goal: Option<Method>)
    returns (p: nat, found: Option<nat>, m: Option<Method>)
    requires at < |prefs| && Terminated(mem, n) && Comes(prefs, at, table, CString(mem[..n]), willDo, goal)
    ensures at <= p
    ensures found.Some? && m.None? ==> goal == None
    ensures found.Some? && m.Some? ==> found == Find(CString(mem[..n]), m.value.name)
    ensures found.Some? && m.Some? && willDo(m.value) ==> goal == m
    ensures found.None? || (m.Some? && !willDo(m.value))
            ==> ComesBehind(prefs, p, table, CString(mem[..n]), willDo, goal)
  {
    var name;
    p, name := NextToken(prefs, at);
    PickStep(prefs, at, p, table, CString(mem[..n]), willDo, goal);
    m := None;
    found := AgreeInstr(mem, n, name);
    if found.Some? {
      m := GetMethodByName(table, name);
      LookupName(table, name);
    }
  }

  // ---------- host key, cipher, MAC and compression ----------

  /** The loops that agree on a host key, a cipher, a MAC and a compression: they differ in what is asked of
      a method besides its being on the server's list. */
  method Agree(prefs: Option<Prefs>, table: seq<Method>, mem: seq<Byte>, n: nat, willDo: Method -> bool)
    returns (r: Option<Method>)
    requires Terminated(mem, n)
    ensures r == Pick(Candidates(prefs, table), CString(mem[..n]), willDo)
  {
    if prefs.Some? {
      r := AgreePreferred(prefs.value, table, mem, n, willDo);
    } else {
      r := AgreeInOrder(table, mem, n, willDo);
    }
  }

  /** Picking comes to `goal`: it is settled, or the search goes on. */
  ghost predicate Goes(settled: bool, r: Option<Method>, prefs: Prefs, at: nat, table: seq<Method>, text: seq<Byte>,
                       willDo: Method -> bool, goal: Option<Method>)
  {
    if settled then r == goal else Comes(prefs, at, table, text, willDo, goal)
  }

  /** One turn of the loop. */
  method TryPreferred(prefs: Prefs, at: nat, table: seq<Method>, mem: seq<Byte>, n: nat, willDo: Method -> bool,
                      ghost goal: Option<Method>)
    returns (settled: bool, r: Option<Method>, next: nat)
    requires at < |prefs| && Terminated(mem, n) && Comes(prefs, at, table, CString(mem[..n]), willDo, goal)
    ensures next > at && Goes(settled, r, prefs, next, table, CString(mem[..n]), willDo, goal)
  {
    var p, found, m := TryName(prefs, at, table, mem, n, willDo, goal);
    next := p + 1;
    if found.Some? && (m.None? || willDo(m.value)) { return true, m, next; }
    if p >= |prefs| { return true, None, next; }
    return false, None, next;
  }

  method AgreePreferred(prefs: Prefs, table: seq<Method>, mem: seq<Byte>, n: nat, willDo: Method -> bool)
    returns (r: Option<Method>)
    requires Terminated(mem, n)
    ensures r == Pick(Preferred(Tokens(prefs), table), CString(mem[..n]), willDo)
  {
    ghost var goal := Pick(Preferred(Tokens(prefs), table), CString(mem[..n]), willDo);
    AtStart(prefs, table, CString(mem[..n]), willDo);
    r := WalkPreferred(prefs, table, mem, n, willDo, goal);
  }

  method WalkPreferred(prefs: Prefs, table: seq<Method>, mem: seq<Byte>, n: nat, willDo: Method -> bool,
                       ghost goal: Option<Method>)
    returns (r: Option<Method>)
    requires Terminated(mem, n) && Comes(prefs, 0, table, CString(mem[..n]), willDo, goal)
    ensures r == goal
  {
    var at: nat, settled := 0, false;
    r := None;
    while at < |prefs| && !settled
      invariant Goes(settled, r, prefs, at, table, CString(mem[..n]), willDo, goal)
    {
      settled, r, at := TryPreferred(prefs, at, table, mem, n, willDo, goal);
    }
    if !settled {
      AtEnd(prefs, at, table, CString(mem[..n]), willDo, goal);
      r := None;
    }
  }

  method AgreeInOrder(table: seq<Method>, mem: seq<Byte>, n: nat, willDo: Method -> bool) returns (r: Option<Method>)
    requires Terminated(mem, n)
    ensures r == Pick(InOrder(table), CString(mem[..n]), willDo)
  {
    ghost var goal := Pick(InOrder(table), CString(mem[..n]), willDo);
    var i := 0;
    assert table[0..] == table;
    while i < |table|
      invariant ComesInOrder(table, i, CString(mem[..n]), willDo, goal)
    {
      InOrderStep(table, i, CString(mem[..n]), willDo, goal);
      var found := AgreeInstr(mem, n, table[i].name);
      if found.Some? {
        if willDo(table[i]) { return Some(table[i]); }
      }
      i := i + 1;
    }
    r := None;
  }

  // ---------- the session ----------

  /** A name-list of the server's message, in memory. */
  datatype Memory = Memory(bytes: seq<Byte>, len: nat) {
    function Raw(): seq<Byte> { if len <= |bytes| then bytes[..len] else [] }
    function Text(): seq<Byte> { CString(Raw()) }
    ghost predicate Ends() { Terminated(bytes, len) }
  }

  /** The lists from s on are these, with these bytes behind them. */
  ghost predicate ListsAt(data: seq<Byte>, s: nat, texts: seq<seq<Byte>>, behind: seq<Byte>) {
    s <= |data| && ReadLists(data[s..], |texts|) == Some((texts, behind))
  }

  /** Locates one list. */
  method NextList(data: seq<Byte>, s: nat, ghost texts: seq<seq<Byte>>, ghost behind: seq<Byte>)
    returns (list: Memory, next: nat)
    requires texts != [] && ListsAt(data, s, texts, behind)
    ensures list.len <= |list.bytes| && list.Raw() == texts[0]
    ensures |texts| > 1 && |texts[1]| < 0x100_0000 ==> list.Ends()
    ensures ListsAt(data, next, texts[1..], behind)
  {
    ghost var rest := data[s..];
    assert data[s..][4..] == data[s + 4..];
    var len := Get32(data, s);
    assert len == Get32(rest, 0);
    list, next := Memory(data[s + 4..], len), s + 4 + len;
    ListsAtNext(data, s, texts, behind);
    if |texts| > 1 && |texts[1]| < 0x100_0000 { TerminatedByLength(data, next, texts[1..], behind); }
  }

  lemma ListsAtNext(data: seq<Byte>, s: nat, texts: seq<seq<Byte>>, behind: seq<Byte>)
    requires texts != [] && ListsAt(data, s, texts, behind)
    ensures var len := Get32(data, s); s + 4 + len <= |data| && data[s + 4..][..len] == texts[0]
    ensures ListsAt(data, s + 4 + Get32(data, s), texts[1..], behind)
  {
    var rest := data[s..];
    var len := Get32(rest, 0);
    assert rest[4 + len..] == data[s + 4 + len..];
    assert rest[4..4 + len] == data[s + 4..][..len];
  }

  lemma TerminatedByLength(data: seq<Byte>, s: nat, texts: seq<seq<Byte>>, behind: seq<Byte>)
    requires texts != [] && ListsAt(data, s, texts, behind) && |texts[0]| < 0x100_0000
    ensures data[s] == 0
  {
    ListsAtNext(data, s, texts, behind);
  }

  /** The ten lists of the message from offset 17 on. */
  method LocateLists(data: seq<Byte>, ghost texts: seq<seq<Byte>>, ghost behind: seq<Byte>)
    returns (lists: seq<Memory>, s: nat)
    requires |texts| == 10 && ListsAt(data, 17, texts, behind) && Moderate(texts)
    ensures s <= |data| && data[s..] == behind && Located(lists, texts)
  {
    lists, s := [], 17;
    assert texts[0..] == texts;
    for k := 0 to 10
      invariant |lists| == k && ListsAt(data, s, texts[k..], behind)
      invariant forall i :: 0 <= i < k && i < 8 ==> lists[i].Ends() && lists[i].Text() == CString(texts[i])
    {
      var list, next := NextList(data, s, texts[k..], behind);
      assert texts[k..][1..] == texts[k + 1..];
      lists, s := lists + [list], next;
    }
  }

  /** A message that the other side has built is one that can be read here. */
  lemma BuiltIsReadable(cookie: seq<Byte>, fields: seq<Field>)
    requires |cookie| == 16 && |fields| == 10 && Short(fields)
    ensures |Texts(fields)| == 10 && ListsAt(Packet(cookie, fields), 17, Texts(fields), [0, 0, 0, 0, 0])
  {
    ReadOfPacket(cookie, fields);
    ListsIsRow(fields);
  }

  /** The lists are short enough for the first byte of the next length to be zero. */
  ghost predicate Moderate(texts: seq<seq<Byte>>) {
    forall i :: 0 < i < |texts| ==> |texts[i]| < 0x100_0000
  }

  /** The eight lists that are looked at have been found, each with a zero behind it. */
  ghost predicate Located(lists: seq<Memory>, texts: seq<seq<Byte>>) {
    && |lists| == |texts| == 10
    && forall i :: 0 <= i < 8 ==> lists[i].Ends() && lists[i].Text() == CString(texts[i])
  }

  /** The preference strings of one direction, and what it has settled on. */
  datatype Preferences = Preferences(crypt: Option<Prefs>, mac: Option<Prefs>, comp: Option<Prefs>)
  datatype Agreed = Agreed(crypt: Option<Method>, mac: Option<Method>, comp: Option<Method>) {
    predicate Complete() { crypt.Some? && mac.Some? && comp.Some? }
  }

  /** The methods a side has, in load order. */
  datatype Methods = Methods(kex: seq<Method>, hostkey: seq<Method>, crypt: seq<Method>, mac: seq<Method>,
                             comp: seq<Method>)

  /** What one direction comes to agree on. */
  function Agreement(prefs: Preferences, methods: Methods, crypt: seq<Byte>, mac: seq<Byte>, comp: seq<Byte>): Agreed {
    Agreed(Pick(Candidates(prefs.crypt, methods.crypt), crypt, Anything()),
           Pick(Candidates(prefs.mac, methods.mac), mac, Anything()),
           Pick(Candidates(prefs.comp, methods.comp), comp, Anything()))
  }

  class KexSession {
    const methods: Methods
    const kexPrefs: Option<Prefs>
    const hostkeyPrefs: Option<Prefs>
    const localPrefs: Preferences
    const remotePrefs: Preferences
    var kex: Option<Method>
    var hostkey: Option<Method>
    var burn: bool
    var local: Agreed
    var remote: Agreed

    constructor (methods: Methods, kexPrefs: Option<Prefs>, hostkeyPrefs: Option<Prefs>, localPrefs: Preferences,
                 remotePrefs: Preferences)
      ensures this.methods == methods && this.kexPrefs == kexPrefs && this.hostkeyPrefs == hostkeyPrefs
      ensures this.localPrefs == localPrefs && this.remotePrefs == remotePrefs
    {
      this.methods, this.kexPrefs, this.hostkeyPrefs := methods, kexPrefs, hostkeyPrefs;
      this.localPrefs, this.remotePrefs := localPrefs, remotePrefs;
      kex, hostkey, burn := None, None, false;
      local, remote := Agreed(None, None, None), Agreed(None, None, None);
    }

    function Hostkeys(): seq<Candidate> {
      Candidates(hostkeyPrefs, methods.hostkey)
    }

    function Kexes(): seq<Candidate> {
      Candidates(kexPrefs, methods.kex)
    }

    /** `libssh2_kex_agree_hostkey` */
    method AgreeHostkey(k: Method, hosts: Memory) returns (ok: bool)
      requires hosts.Ends()
      modifies `hostkey
      ensures var picked := PickHostkey(Hostkeys(), hosts.Text(), k);
              ok == picked.Some? && hostkey == if ok then picked else old(hostkey)
    {
      var h := Agree(hostkeyPrefs, methods.hostkey, hosts.bytes, hosts.len, SuitsKex(k));
      ok := h.Some?;
      if ok { hostkey := h; }
    }

    /** The key exchange stands, with a host key for it, and the server's optimistic packet is still to be
        dropped unless its guess, the first name on its list, was right. */
    ghost predicate Stands(m: Method, text: seq<Byte>, hostText: seq<Byte>, burned: bool)
      reads this
    {
      kex == Some(m) && hostkey == PickHostkey(Hostkeys(), hostText, m) && burn == (burned && Split(text)[0] != m.name)
    }

    /** What the agreement on a key exchange leaves behind, when it was to come to `goal`. */
    ghost predicate Settled(ok: bool, goal: Option<Method>, text: seq<Byte>, hostText: seq<Byte>, burned: bool)
      reads this
    {
      ok == goal.Some? && (ok ==> Stands(goal.value, text, hostText, burned))
    }

    /** Tries one key exchange on the server's list, found there at `at`. */
    method TryKex(m: Method, at: nat, kexes: Memory, hosts: Memory) returns (ok: bool)
      requires kexes.Ends() && hosts.Ends() && Some(at) == Find(kexes.Text(), m.name)
      modifies `kex, `hostkey, `burn
      ensures ok == HasHostkey(Hostkeys(), hosts.Text())(m)
      ensures ok ==> Stands(m, kexes.Text(), hosts.Text(), old(burn))
      ensures !ok ==> kex == old(kex) && hostkey == old(hostkey) && burn == old(burn)
    {
      ok := AgreeHostkey(m, hosts);
      if ok {
        kex := Some(m);
        FirstNameAtZero(kexes.Text(), m.name);
        if burn && at == 0 { burn := false; }
      }
    }

    /** One turn of the walk through the preferred key exchanges. */
    method TryPreferredKex(prefs: Prefs, at: nat, kexes: Memory, hosts: Memory, ghost goal: Option<Method>)
      returns (settled: bool, ok: bool, next: nat)
      requires kexes.Ends() && hosts.Ends() && at < |prefs|
      requires Comes(prefs, at, methods.kex, kexes.Text(), HasHostkey(Hostkeys(), hosts.Text()), goal)
      modifies `kex, `hostkey, `burn
      ensures next > at
      ensures settled ==> Settled(ok, goal, kexes.Text(), hosts.Text(), old(burn))
      ensures !settled ==> Comes(prefs, next, methods.kex, kexes.Text(), HasHostkey(Hostkeys(), hosts.Text()), goal)
      ensures !settled || !ok ==> kex == old(kex) && hostkey == old(hostkey) && burn == old(burn)
    {
      ghost var willDo := HasHostkey(Hostkeys(), hosts.Text());
      ghost var text := kexes.Text();
      var p, found, m := TryName(prefs, at, methods.kex, kexes.bytes, kexes.len, willDo, goal);
      next, ok := p + 1, false;
      if found.Some? {
        if m.None? { return true, false, next; }
        ok := TryKex(m.value, found.value, kexes, hosts);
        assert ok == willDo(m.value);
        if ok {
          assert goal == m;
          return true, true, next;
        }
      }
      assert ComesBehind(prefs, p, methods.kex, text, willDo, goal);
      return p >= |prefs|, false, next;
    }

    /** `libssh2_kex_agree_kex_hostkey` with a preference string. */
    method AgreePreferredKex(prefs: Prefs, kexes: Memory, hosts: Memory) returns (ok: bool)
      requires kexes.Ends() && hosts.Ends() && kexPrefs == Some(prefs)
      modifies `kex, `hostkey, `burn
      ensures Settled(ok, PickKex(Kexes(), kexes.Text(), Hostkeys(), hosts.Text()), kexes.Text(), hosts.Text(),
                      old(burn))
      ensures !ok ==> kex == old(kex) && hostkey == old(hostkey) && burn == old(burn)
    {
      AtStart(prefs, methods.kex, kexes.Text(), HasHostkey(Hostkeys(), hosts.Text()));
      ok := WalkPreferredKex(prefs, kexes, hosts, PickKex(Kexes(), kexes.Text(), Hostkeys(), hosts.Text()));
    }

    method WalkPreferredKex(prefs: Prefs, kexes: Memory, hosts: Memory, ghost goal: Option<Method>) returns (ok: bool)
      requires kexes.Ends() && hosts.Ends()
      requires Comes(prefs, 0, methods.kex, kexes.Text(), HasHostkey(Hostkeys(), hosts.Text()), goal)
      modifies `kex, `hostkey, `burn
      ensures Settled(ok, goal, kexes.Text(), hosts.Text(), old(burn))
      ensures !ok ==> kex == old(kex) && hostkey == old(hostkey) && burn == old(burn)
    {
      var at: nat := 0;
      while at < |prefs|
        invariant kex == old(kex) && hostkey == old(hostkey) && burn == old(burn)
        invariant Comes(prefs, at, methods.kex, kexes.Text(), HasHostkey(Hostkeys(), hosts.Text()), goal)
      {
        var settled;
        settled, ok, at := TryPreferredKex(prefs, at, kexes, hosts, goal);
        if settled { return; }
      }
      AtEnd(prefs, at, methods.kex, kexes.Text(), HasHostkey(Hostkeys(), hosts.Text()), goal);
      ok := false;
    }

    /** `libssh2_kex_agree_kex_hostkey` in load order. */
    method AgreeKexInOrder(kexes: Memory, hosts: Memory) returns (ok: bool)
      requires kexes.Ends() && hosts.Ends() && kexPrefs == None
      modifies `kex, `hostkey, `burn
      ensures Settled(ok, PickKex(Kexes(), kexes.Text(), Hostkeys(), hosts.Text()), kexes.Text(), hosts.Text(),
                      old(burn))
      ensures !ok ==> kex == old(kex) && hostkey == old(hostkey) && burn == old(burn)
    {
      ghost var willDo := HasHostkey(Hostkeys(), hosts.Text());
      ghost var goal := PickKex(Kexes(), kexes.Text(), Hostkeys(), hosts.Text());
      var i := 0;
      assert methods.kex[0..] == methods.kex;
      while i < |methods.kex|
        invariant kex == old(kex) && hostkey == old(hostkey) && burn == old(burn)
        invariant ComesInOrder(methods.kex, i, kexes.Text(), willDo, goal)
      {
        InOrderStep(methods.kex, i, kexes.Text(), willDo, goal);
        var found := AgreeInstr(kexes.bytes, kexes.len, methods.kex[i].name);
        if found.Some? {
          ok := TryKex(methods.kex[i], found.value, kexes, hosts);
          if ok { return; }
        }
        i := i + 1;
      }
      ok := false;
    }

    method AgreeKexHostkey(kexes: Memory, hosts: Memory) returns (ok: bool)
      requires kexes.Ends() && hosts.Ends()
      modifies `kex, `hostkey, `burn
      ensures Settled(ok, PickKex(Kexes(), kexes.Text(), Hostkeys(), hosts.Text()), kexes.Text(), hosts.Text(),
                      old(burn))
      ensures !ok ==> kex == old(kex) && hostkey == old(hostkey) && burn == old(burn)
    {
      if kexPrefs.Some? {
        ok := AgreePreferredKex(kexPrefs.value, kexes, hosts);
      } else {
        ok := AgreeKexInOrder(kexes, hosts);
      }
    }

    /** What the two directions should come to. */
    function There(texts: seq<seq<Byte>>): Agreed
      requires |texts| == 10
    {
      Agreement(localPrefs, methods, CString(texts[2]), CString(texts[4]), CString(texts[6]))
    }

    function Back(texts: seq<seq<Byte>>): Agreed
      requires |texts| == 10
    {
      Agreement(remotePrefs, methods, CString(texts[3]), CString(texts[5]), CString(texts[7]))
    }

    /** The agreements on ciphers, MACs and compressions, in the source's order. */
    method AgreeDirections(lists: seq<Memory>, ghost texts: seq<seq<Byte>>) returns (ok: bool)
      requires Located(lists, texts)
      modifies `local, `remote
      ensures ok == (There(texts).Complete() && Back(texts).Complete())
      ensures ok ==> local == There(texts) && remote == Back(texts)
    {
      var m := AgreeOn(localPrefs.crypt, methods.crypt, lists[2]);
      if m.None? { return false; }
      local := local.(crypt := m);
      m := AgreeOn(remotePrefs.crypt, methods.crypt, lists[3]);
      if m.None? { return false; }
      remote := remote.(crypt := m);
      m := AgreeOn(localPrefs.mac, methods.mac, lists[4]);
      if m.None? { return false; }
      local := local.(mac := m);
      m := AgreeOn(remotePrefs.mac, methods.mac, lists[5]);
      if m.None? { return false; }
      remote := remote.(mac := m);
      m := AgreeOn(localPrefs.comp, methods.comp, lists[6]);
      if m.None? { return false; }
      local := local.(comp := m);
      m := AgreeOn(remotePrefs.comp, methods.comp, lists[7]);
      if m.None? { return false; }
      remote := remote.(comp := m);
      ok := true;
    }

    /** `libssh2_kex_agree_methods` on a message of ten lists and the bytes behind them. */
    method AgreeMethods(data: seq<Byte>, ghost texts: seq<seq<Byte>>, ghost behind: seq<Byte>) returns (ok: bool)
      requires |texts| == 10 && behind != [] && ListsAt(data, 17, texts, behind) && Moderate(texts)
      modifies this
      ensures var kexes, hosts := CString(texts[0]), CString(texts[1]);
              var hostkeys := Candidates(hostkeyPrefs, methods.hostkey);
              var picked := PickKex(Candidates(kexPrefs, methods.kex), kexes, hostkeys, hosts);
              && (ok ==> picked.Some? && kex == picked && hostkey == PickHostkey(hostkeys, hosts, picked.value)
                         && burn == (behind[0] % 2 == 1 && Split(kexes)[0] != picked.value.name))
              && (!ok ==>
                    || picked == None
                    || Pick(Candidates(localPrefs.crypt, methods.crypt), CString(texts[2]), Anything()) == None
                    || Pick(Candidates(remotePrefs.crypt, methods.crypt), CString(texts[3]), Anything()) == None
                    || Pick(Candidates(localPrefs.mac, methods.mac), CString(texts[4]), Anything()) == None
                    || Pick(Candidates(remotePrefs.mac, methods.mac), CString(texts[5]), Anything()) == None
                    || Pick(Candidates(localPrefs.comp, methods.comp), CString(texts[6]), Anything()) == None
                    || Pick(Candidates(remotePrefs.comp, methods.comp), CString(texts[7]), Anything()) == None)
      ensures ok ==>
        && local.crypt == Pick(Candidates(localPrefs.crypt, methods.crypt), CString(texts[2]), Anything())
        && remote.crypt == Pick(Candidates(remotePrefs.crypt, methods.crypt), CString(texts[3]), Anything())
        && local.mac == Pick(Candidates(localPrefs.mac, methods.mac), CString(texts[4]), Anything())
        && remote.mac == Pick(Candidates(remotePrefs.mac, methods.mac), CString(texts[5]), Anything())
        && local.comp == Pick(Candidates(localPrefs.comp, methods.comp), CString(texts[6]), Anything())
        && remote.comp == Pick(Candidates(remotePrefs.comp, methods.comp), CString(texts[7]), Anything())
        && local.crypt.Some? && local.mac.Some? && local.comp.Some?
        && remote.crypt.Some? && remote.mac.Some? && remote.comp.Some?
    {
      var lists, s := LocateLists(data, texts, behind);
      assert data[s] == data[s..][0];
      burn := data[s] % 2 == 1;
      ok := AgreeKexHostkey(lists[0], lists[1]);
      if ok { ok := AgreeDirections(lists, texts); }
    }
  }

  method AgreeOn(prefs: Option<Prefs>, table: seq<Method>, list: Memory) returns (r: Option<Method>)
    requires list.Ends()
    ensures r == Pick(Candidates(prefs, table), list.Text(), Anything())
  {
    r := Agree(prefs, table, list.bytes, list.len, Anything());
  }

  lemma {:induction false} LookupName(table: seq<Method>, name: Name)
    ensures Lookup(table, name).Some? ==> Lookup(table, name).value.name == name
  {
    if table != [] && table[0].name != name { LookupName(table[1..], name); }
  }
}
