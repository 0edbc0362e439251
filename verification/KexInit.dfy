/** Building the SSH_MSG_KEXINIT packet (section 7.1 of RFC 4253) in a buffer of computed size, and reading
    the name-lists back out of it. */
module KexInit {
  import opened Bytes
  import opened Options
  import opened NameLists

  const KEXINIT: Byte := 20

  /** A preference string, if one was set, and the names of the methods that stand in for it. */
  datatype Field = Field(prefs: Option<seq<Byte>>, table: seq<seq<Byte>>)

  function Text(f: Field): seq<Byte> {
    match f.prefs
    case Some(text) => text
    case None => Join(f.table)
  }

  function Encoded(text: seq<Byte>): seq<Byte>
    requires |text| < WORD
  {
    Put32(|text|) + text
  }

  ghost predicate Short(fields: seq<Field>) {
    forall i :: 0 <= i < |fields| ==> |Text(fields[i])| < WORD
  }

  /** The name-lists one behind the other. */
  function Lists(fields: seq<Field>): seq<Byte>
    requires Short(fields)
  {
    if fields == [] then []
    else
      assert Short(fields[..|fields| - 1]);
      Lists(fields[..|fields| - 1]) + Encoded(Text(fields[|fields| - 1]))
  }

  /** The packet of section 7.1: type, cookie, ten name-lists, no guess follows, and a reserved word. */
  function Packet(cookie: seq<Byte>, fields: seq<Field>): seq<Byte>
    requires Short(fields)
  {
    [KEXINIT] + cookie + Lists(fields) + [0, 0, 0, 0, 0]
  }

  // ---------- building ----------

  function JoinedLength(names: seq<seq<Byte>>): nat {
    if names == [] then 0 else |names[0]| + 1 + JoinedLength(names[1..])
  }

  lemma {:induction false} JoinLength(names: seq<seq<Byte>>)
    requires names != []
    ensures |Join(names)| + 1 == JoinedLength(names)
  {
    if |names| > 1 {
      JoinLength(names[1..]);
    } else {
      assert JoinedLength(names[1..]) == 0;
    }
  }

  /** `libssh2_kex_method_strlen` */
  method MethodStrlen(table: seq<seq<Byte>>) returns (len: nat)
    ensures len == |Join(table)|
  {
    if table == [] { return 0; }
    var i := 0;
    len := 0;
    while i < |table|
      invariant i <= |table| && len + JoinedLength(table[i..]) == JoinedLength(table)
    {
      assert table[i..][1..] == table[i + 1..];
      len := len + |table[i]| + 1;
      i := i + 1;
    }
    JoinLength(table);
    len := len - 1;
  }

  /** memcpy into a buffer. */
  method Copy(to: array<Byte>, at: nat, from: seq<Byte>)
    requires at + |from| <= to.Length
    modifies to
    ensures to[..at + |from|] == old(to[..at]) + from
    ensures to[at + |from|..] == old(to[at + |from|..])
  {
    forall i | 0 <= i < |from| {
      to[at + i] := from[i];
    }
  }

  /** Every name with the comma behind it. */
  function WithCommas(names: seq<seq<Byte>>): seq<Byte> {
    if names == [] then [] else WithCommas(names[..|names| - 1]) + names[|names| - 1] + [COMMA]
  }

  lemma {:induction false} WithCommasCons(name: seq<Byte>, names: seq<seq<Byte>>)
    ensures WithCommas([name] + names) == name + [COMMA] + WithCommas(names)
  {
    if names == [] {
      assert ([name] + names)[..0] == [];
    } else {
      var front, last := names[..|names| - 1], names[|names| - 1];
      WithCommasCons(name, front);
      assert ([name] + names)[..|names|] == [name] + front;
    }
  }

  /** The list as it is written, and the comma too many. */
  lemma {:induction false} WithCommasIsJoin(names: seq<seq<Byte>>)
    requires names != []
    ensures WithCommas(names) == Join(names) + [COMMA]
  {
    assert names == [names[0]] + names[1..];
    WithCommasCons(names[0], names[1..]);
    if |names| > 1 { WithCommasIsJoin(names[1..]); }
  }

  /** The first i names have been written behind `head`, each with its comma. */
  ghost predicate NamesOut(out: seq<Byte>, head: seq<Byte>, table: seq<seq<Byte>>, i: nat) {
    && i <= |table| && out == head + WithCommas(table[..i])
    && |out| + JoinedLength(table[i..]) == |head| + JoinedLength(table)
  }

  lemma NamesOutStep(out: seq<Byte>, more: seq<Byte>, head: seq<Byte>, table: seq<seq<Byte>>, i: nat)
    requires i < |table| && NamesOut(out, head, table, i) && more == out + table[i] + [COMMA]
    ensures NamesOut(more, head, table, i + 1)
  {
    assert table[i..][1..] == table[i + 1..] && table[..i + 1][..i] == table[..i];
    assert WithCommas(table[..i + 1]) == WithCommas(table[..i]) + table[i] + [COMMA];
  }

  lemma NamesOutRoom(out: seq<Byte>, head: seq<Byte>, table: seq<seq<Byte>>, i: nat)
    requires i < |table| && NamesOut(out, head, table, i)
    ensures |out| + |table[i]| + 1 <= |head| + JoinedLength(table)
  {
  }

  /** One name and its comma. */
  method WriteName(buf: array<Byte>, at: nat, name: seq<Byte>, ghost was: seq<Byte>)
    requires at + |name| + 1 <= buf.Length == |was| && buf[at..] == was[at..]
    modifies buf
    ensures buf[..at + |name| + 1] == old(buf[..at]) + name + [COMMA]
    ensures buf[at + |name| + 1..] == was[at + |name| + 1..]
  {
    var n := |name|;
    assert buf[at + n + 1..] == buf[at..][n + 1..] && was[at + n + 1..] == was[at..][n + 1..];
    Copy(buf, at, name);
    assert buf[at + n + 1..] == buf[at + n..][1..];
    Copy(buf, at + n, [COMMA]);
  }

  /** The names with their commas, one behind the other. */
  method WriteNames(buf: array<Byte>, at: nat, table: seq<seq<Byte>>)
    requires at + JoinedLength(table) <= buf.Length
    modifies buf
    ensures |WithCommas(table)| == JoinedLength(table)
    ensures buf[..at + JoinedLength(table)] == old(buf[..at]) + WithCommas(table)
    ensures buf[at + JoinedLength(table)..] == old(buf[at + JoinedLength(table)..])
  {
    var s: nat, i: nat := at, 0;
    ghost var head, was := buf[..at], buf[..];
    assert table[0..] == table && table[..0] == [];
    while i < |table|
      invariant s <= buf.Length && NamesOut(buf[..s], head, table, i)
      invariant buf[s..] == was[s..]
    {
      NamesOutRoom(buf[..s], head, table, i);
      ghost var out := buf[..s];
      WriteName(buf, s, table[i], was);
      s := s + |table[i]| + 1;
      NamesOutStep(out, buf[..s], head, table, i);
      i := i + 1;
    }
    assert table[..i] == table && table[i..] == [];
  }

  /** `libssh2_kex_method_list`: the list, and behind it one stray comma unless the list is empty. */
  method MethodList(buf: array<Byte>, at: nat, listLen: U32, table: seq<seq<Byte>>) returns (advance: nat)
    requires listLen == |Join(table)|
    requires at + 4 + listLen + (if table == [] then 0 else 1) <= buf.Length
    modifies buf
    ensures advance == 4 + listLen
    ensures buf[..at + advance] == old(buf[..at]) + Encoded(Join(table))
    ensures table == [] ==> buf[at + advance..] == old(buf[at + advance..])
    ensures table != [] ==> buf[at + advance..] == [COMMA] + old(buf[at + advance + 1..])
  {
    ghost var was := buf[..];
    Copy(buf, at, Put32(listLen));
    if table == [] { return 4; }
    WithCommasIsJoin(table);
    JoinLength(table);
    ghost var before := buf[..at + 4];
    WriteNames(buf, at + 4, table);
    advance := listLen + 4;
    Trim(buf[..at + advance + 1], before, Join(table));
    CutBefore(buf[..], at + advance);
    assert was[at + advance + 1..] == was[at + 4..][listLen + 1..];
  }

  lemma {:induction false} CutBefore(all: seq<Byte>, n: nat)
    requires n < |all|
    ensures all[..n] == all[..n + 1][..n] && all[n..] == [all[..n + 1][n]] + all[n + 1..]
  {
  }

  lemma Trim(all: seq<Byte>, before: seq<Byte>, text: seq<Byte>)
    requires all == before + (text + [COMMA])
    ensures all[..|before| + |text|] == before + text && all[|before| + |text|] == COMMA
  {
  }

  /** One LIBSSH2_METHOD_PREFS_STR: the name-list behind what has been written so far. */
  method WriteField(buf: array<Byte>, at: nat, len: U32, f: Field) returns (next: nat)
    requires len == |Text(f)| && at + 4 + len + 1 <= buf.Length
    modifies buf
    ensures next == at + 4 + len
    ensures buf[..next] == old(buf[..at]) + Encoded(Text(f))
  {
    if f.prefs.Some? {
      Copy(buf, at, Put32(len));
      Copy(buf, at + 4, f.prefs.value);
      next := at + 4 + len;
    } else {
      var advance := MethodList(buf, at, len, f.table);
      next := at + advance;
    }
  }

  method TextLength(f: Field) returns (len: nat)
    ensures len == |Text(f)|
  {
    match f.prefs {
      case Some(text) => len := |text|;
      case None => len := MethodStrlen(f.table);
    }
  }

  function ListsLength(fields: seq<Field>): nat {
    if fields == [] then 0 else ListsLength(fields[..|fields| - 1]) + 4 + |Text(fields[|fields| - 1])|
  }

  lemma {:induction false} ListsLengthIs(fields: seq<Field>)
    requires Short(fields)
    ensures |Lists(fields)| == ListsLength(fields)
  {
    if fields != [] {
      assert Short(fields[..|fields| - 1]);
      ListsLengthIs(fields[..|fields| - 1]);
    }
  }

  /** Writing list k behind the first k. */
  lemma ListsStep(fields: seq<Field>, k: nat)
    requires Short(fields) && k < |fields|
    ensures Short(fields[..k]) && Short(fields[..k + 1])
    ensures Lists(fields[..k + 1]) == Lists(fields[..k]) + Encoded(Text(fields[k]))
    ensures ListsLength(fields[..k + 1]) == ListsLength(fields[..k]) + 4 + |Text(fields[k])|
  {
    assert fields[..k + 1][..k] == fields[..k];
  }

  lemma {:induction false} ListsLengthGrows(fields: seq<Field>, k: nat)
    requires k <= |fields|
    ensures ListsLength(fields[..k]) <= ListsLength(fields)
    decreases |fields| - k
  {
    if k < |fields| {
      assert fields[..k + 1][..k] == fields[..k];
      ListsLengthGrows(fields, k + 1);
    } else {
      assert fields[..k] == fields;
    }
  }

  /** The size of the packet: the type, the cookie, the lists with their lengths, and the last five bytes. */
  method PacketSize(fields: seq<Field>) returns (dataLen: nat)
    requires Short(fields)
    ensures dataLen == 22 + ListsLength(fields)
    ensures forall cookie: seq<Byte> :: |cookie| == 16 ==> dataLen == |Packet(cookie, fields)|
  {
    var i := 0;
    dataLen := 22;
    while i < |fields|
      invariant i <= |fields| && dataLen == 22 + ListsLength(fields[..i])
    {
      ListsStep(fields, i);
      var len := TextLength(fields[i]);
      dataLen := dataLen + 4 + len;
      i := i + 1;
    }
    assert fields[..i] == fields;
    ListsLengthIs(fields);
  }

  /** The first i lists have been written behind `head`. */
  ghost predicate Written(out: seq<Byte>, head: seq<Byte>, fields: seq<Field>, i: nat) {
    i <= |fields| && Short(fields[..i]) && out == head + Lists(fields[..i])
      && |out| == |head| + ListsLength(fields[..i])
  }

  lemma WrittenStep(out: seq<Byte>, more: seq<Byte>, head: seq<Byte>, fields: seq<Field>, i: nat)
    requires i < |fields| && Short(fields) && Written(out, head, fields, i) && more == out + Encoded(Text(fields[i]))
    ensures Written(more, head, fields, i + 1)
  {
    ListsStep(fields, i);
  }

  lemma RoomForList(fields: seq<Field>, i: nat)
    requires i < |fields| && Short(fields)
    ensures ListsLength(fields[..i]) + 4 + |Text(fields[i])| <= ListsLength(fields)
  {
    ListsStep(fields, i);
    ListsLengthGrows(fields, i + 1);
  }

  /** The uses of the macro, one behind the other. */
  method WriteLists(data: array<Byte>, at: nat, fields: seq<Field>) returns (s: nat)
    requires Short(fields) && at + ListsLength(fields) + 1 <= data.Length
    modifies data
    ensures s == at + ListsLength(fields)
    ensures data[..s] == old(data[..at]) + Lists(fields)
  {
    s := at;
    var i := 0;
    ghost var head := data[..at];
    while i < |fields|
      invariant s <= data.Length && Written(data[..s], head, fields, i)
    {
      RoomForList(fields, i);
      ghost var out := data[..s];
      var len := TextLength(fields[i]);
      s := WriteField(data, s, len, fields[i]);
      WrittenStep(out, data[..s], head, fields, i);
      i := i + 1;
    }
    assert fields[..i] == fields;
  }

  /** `libssh2_kexinit`: a buffer of exactly the right size, and its contents.  `cookie` is what RAND_bytes yields. */
  method Build(fields: seq<Field>, cookie: seq<Byte>) returns (data: array<Byte>)
    requires |fields| == 10 && |cookie| == 16 && 22 + ListsLength(fields) < WORD
    ensures Short(fields)
    ensures data[..] == Packet(cookie, fields)
  {
    FitsShort(fields);
    var dataLen := PacketSize(fields);
    data := new Byte[dataLen];
    Copy(data, 0, [KEXINIT]);
    Copy(data, 1, cookie);
    var s := WriteLists(data, 17, fields);
    Copy(data, s, [0, 0, 0, 0, 0]);
    assert data[..] == data[..s + 5];
  }

  lemma FitsShort(fields: seq<Field>)
    requires ListsLength(fields) < WORD
    ensures Short(fields)
  {
    forall i | 0 <= i < |fields| ensures |Text(fields[i])| < WORD {
      ListsLengthGrows(fields, i + 1);
      assert fields[..i + 1][..i] == fields[..i];
    }
  }

  // ---------- reading ----------

  /** The lists that `libssh2_kex_agree_methods` locates in the bytes s, and the bytes behind them; none if
      they run past the end of the packet. */
  function ReadLists(s: seq<Byte>, count: nat): Option<(seq<seq<Byte>>, seq<Byte>)>
    decreases count
  {
    if count == 0 then Some(([], s))
    else if |s| < 4 || |s| < 4 + Get32(s, 0) then None
    else
      var end := 4 + Get32(s, 0);
      match ReadLists(s[end..], count - 1)
      case None => None
      case Some((rest, behind)) => Some(([s[4..end]] + rest, behind))
  }

  function Texts(fields: seq<Field>): seq<seq<Byte>> {
    if fields == [] then [] else [Text(fields[0])] + Texts(fields[1..])
  }

  ghost predicate AllShort(texts: seq<seq<Byte>>) {
    forall i :: 0 <= i < |texts| ==> |texts[i]| < WORD
  }

  /** The name-lists again, from the first one on. */
  function Row(texts: seq<seq<Byte>>): seq<Byte>
    requires AllShort(texts)
  {
    if texts == [] then [] else Encoded(texts[0]) + Row(texts[1..])
  }

  lemma {:induction false} RowAppend(texts: seq<seq<Byte>>, text: seq<Byte>)
    requires AllShort(texts) && |text| < WORD
    ensures AllShort(texts + [text]) && Row(texts + [text]) == Row(texts) + Encoded(text)
  {
    if texts == [] {
      assert Row([text]) == Encoded(text) + Row([]);
    } else {
      RowAppend(texts[1..], text);
      RowCons(texts[0], texts[1..] + [text]);
      assert texts + [text] == [texts[0]] + (texts[1..] + [text]);
      assert Encoded(texts[0]) + (Row(texts[1..]) + Encoded(text)) == Row(texts) + Encoded(text);
    }
  }

  lemma {:induction false} RowCons(text: seq<Byte>, texts: seq<seq<Byte>>)
    requires AllShort(texts) && |text| < WORD
    ensures AllShort([text] + texts) && Row([text] + texts) == Encoded(text) + Row(texts)
  {
    assert ([text] + texts)[1..] == texts;
  }

  lemma {:induction false} TextsAppend(fields: seq<Field>, f: Field)
    ensures Texts(fields + [f]) == Texts(fields) + [Text(f)]
  {
    if fields != [] {
      TextsAppend(fields[1..], f);
      assert (fields + [f])[1..] == fields[1..] + [f];
    }
  }

  lemma {:induction false} ListsIsRow(fields: seq<Field>)
    requires Short(fields)
    ensures AllShort(Texts(fields)) && |Texts(fields)| == |fields| && Lists(fields) == Row(Texts(fields))
    decreases |fields|
  {
    if fields != [] {
      var front, last := fields[..|fields| - 1], fields[|fields| - 1];
      assert fields == front + [last] && Short(front);
      ListsIsRow(front);
      TextsAppend(front, last);
      RowAppend(Texts(front), Text(last));
    }
  }

  lemma OneList(text: seq<Byte>, behind: seq<Byte>)
    requires |text| < WORD
    ensures var s := Encoded(text) + behind;
            |s| >= 4 + |text| && Get32(s, 0) == |text| && s[4..4 + |text|] == text && s[4 + |text|..] == behind
  {
    Get32OfPut32(|text|, [], text + behind);
    assert Encoded(text) + behind == [] + Put32(|text|) + (text + behind);
  }

  /** Lists that were written are read back. */
  lemma {:induction false} ReadOfRow(texts: seq<seq<Byte>>, behind: seq<Byte>)
    requires AllShort(texts)
    ensures ReadLists(Row(texts) + behind, |texts|) == Some((texts, behind))
  {
    if texts == [] {
      assert [] + behind == behind;
    } else {
      var rest := Row(texts[1..]) + behind;
      OneList(texts[0], rest);
      assert Row(texts) + behind == Encoded(texts[0]) + rest;
      ReadOfRow(texts[1..], behind);
      assert [texts[0]] + texts[1..] == texts;
    }
  }

  lemma Shape(head: seq<Byte>, cookie: seq<Byte>, lists: seq<Byte>, tail: seq<Byte>)
    ensures var data := head + cookie + lists + tail;
            && data[..|head|] == head && data[|head|..|head| + |cookie|] == cookie
            && data[|head| + |cookie|..] == lists + tail
  {
  }

  /** Reading the packet that was built yields its name-lists, and then the byte that says that no guessed
      packet follows. */
  lemma {:induction false} ReadOfPacket(cookie: seq<Byte>, fields: seq<Field>)
    requires Short(fields) && |cookie| == 16
    ensures var data := Packet(cookie, fields);
            && data[0] == KEXINIT && data[1..17] == cookie
            && ReadLists(data[17..], |fields|) == Some((Texts(fields), [0, 0, 0, 0, 0]))
  {
    Shape([KEXINIT], cookie, Lists(fields), [0, 0, 0, 0, 0]);
    assert Packet(cookie, fields)[..1][0] == KEXINIT;
    ListsIsRow(fields);
    ReadOfRow(Texts(fields), [0, 0, 0, 0, 0]);
  }

  lemma {:induction false} TextsAt(fields: seq<Field>, i: nat)
    requires i < |fields|
    ensures |Texts(fields)| == |fields| && Texts(fields)[i] == Text(fields[i])
  {
    if i > 0 {
      TextsAt(fields[1..], i - 1);
    } else {
      TextsLength(fields[1..]);
    }
  }

  lemma {:induction false} TextsLength(fields: seq<Field>)
    ensures |Texts(fields)| == |fields|
  {
    if fields != [] { TextsLength(fields[1..]); }
  }

  /** What the reader of a built packet finds in place i: the preference string that was set or, without one, the
      names of the table. */
  lemma {:induction false} BuiltListIs(cookie: seq<Byte>, fields: seq<Field>, i: nat)
    requires Short(fields) && |cookie| == 16 && i < |fields|
    ensures var r := ReadLists(Packet(cookie, fields)[17..], |fields|);
            && r.Some? && |r.value.0| == |fields|
            && (fields[i].prefs.Some? ==> r.value.0[i] == fields[i].prefs.value)
            && (fields[i].prefs == None && fields[i].table == [] ==> r.value.0[i] == [])
            && (fields[i].prefs == None && fields[i].table != []
                && (forall j :: 0 <= j < |fields[i].table| ==> COMMA !in fields[i].table[j])
                ==> Split(r.value.0[i]) == fields[i].table)
  {
    ReadOfPacket(cookie, fields);
    TextsAt(fields, i);
    if fields[i].prefs == None && fields[i].table != []
       && forall j :: 0 <= j < |fields[i].table| ==> COMMA !in fields[i].table[j]
    {
      SplitOfJoin(fields[i].table);
    }
  }

  /** The packet begins with its type and the cookie and ends with no guess and a reserved word of zero. */
  lemma {:induction false} PacketEnds(cookie: seq<Byte>, fields: seq<Field>)
    requires Short(fields) && |cookie| == 16
    ensures var data := Packet(cookie, fields);
            && |data| >= 22 && data[0] == 20 && data[1..17] == cookie && data[|data| - 5..] == [0, 0, 0, 0, 0]
  {
  }
}
