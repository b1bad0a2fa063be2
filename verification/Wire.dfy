// csdata.c: a message on a stream, as fields of type, length and value in network byte order.
module Wire {
  import opened Bytes
  import opened AttrSlots
  import opened ChunkLayout

  const MARKER_TYPE := 0x0000_0001
  const MAGIC := 0x0017_3414
  const EOF_MARK := 0x2222_1111
  const ATTRCOUNT := 0x0000_0002
  const ATTRNAME := 0x0000_0004
  const STRING := 0x0000_0008
  const INT := 0x0000_0010
  const BODY := 0x0000_1000
  const EMPTYBODY := 0x0000_1001
  const TYPEMASK := 0x1_0000

  datatype Message = Message(attrs: seq<Attr>, body: Option<seq<byte>>)

  predicate Short(s: seq<byte>) {
    |s| < 0x1_0000_0000
  }

  predicate SendableAttr(a: Attr) {
    Short(a.name) && (a.StrAttr? ==> Short(a.text))
  }

  // All lengths and counts fit their 32-bit fields.
  predicate Sendable(m: Message) {
    && |m.attrs| < 0x1_0000_0000
    && (forall i :: 0 <= i < |m.attrs| ==> SendableAttr(m.attrs[i]))
    && (m.body.Some? ==> Short(m.body.value))
  }

  // ---- encoding ----

  function Header(kind: u32, len: u32): (b: seq<byte>)
    ensures |b| == 8
  {
    BE32(kind) + BE32(len)
  }

  function EncodeString(kind: u32, s: seq<byte>): seq<byte>
    requires Short(s)
  {
    Header(kind, |s|) + s
  }

  function EncodeInt(kind: u32, value: u32): seq<byte> {
    EncodeString(kind, BE32(value))
  }

  function EncodeAttr(a: Attr): seq<byte>
    requires SendableAttr(a)
  {
    EncodeString(ATTRNAME, a.name) + if a.StrAttr? then EncodeString(STRING, a.text) else EncodeInt(INT, a.value)
  }

  function EncodeAttrs(attrs: seq<Attr>): seq<byte>
    requires forall i :: 0 <= i < |attrs| ==> SendableAttr(attrs[i])
  {
    if attrs == [] then []
    else EncodeAttrs(attrs[..|attrs| - 1]) + EncodeAttr(attrs[|attrs| - 1])
  }

  function EncodeBody(body: Option<seq<byte>>): seq<byte>
    requires body.Some? ==> Short(body.value)
  {
    if body.Some? then EncodeString(BODY, body.value) else EncodeInt(EMPTYBODY, 0)
  }

  function EncodeTrailer(body: Option<seq<byte>>): seq<byte>
    requires body.Some? ==> Short(body.value)
  {
    EncodeBody(body) + EncodeInt(MARKER_TYPE, EOF_MARK)
  }

  function EncodeCounted(m: Message): seq<byte>
    requires Sendable(m)
  {
    EncodeInt(ATTRCOUNT, |m.attrs|) + (EncodeAttrs(m.attrs) + EncodeTrailer(m.body))
  }

  function EncodeMessage(m: Message): seq<byte>
    requires Sendable(m)
  {
    EncodeInt(MARKER_TYPE, MAGIC) + EncodeCounted(m)
  }

  // ---- decoding ----

  // A field: its type, its value and the rest of the stream.
  datatype Field = Field(kind: u32, value: seq<byte>, rest: seq<byte>)

  function DecodeField(s: seq<byte>): Option<Field> {
    if |s| < 8 || |s| < 8 + N32(s, 4) then None
    else Some(Field(N32(s, 0), s[8..8 + N32(s, 4)], s[8 + N32(s, 4)..]))
  }

  // A field that must have four bytes of value.
  function DecodeInt(s: seq<byte>): (r: Option<Field>)
    ensures r.Some? ==> |r.value.value| == 4
  {
    match DecodeField(s)
    case None => None
    case Some(f) => if |f.value| != 4 then None else Some(f)
  }

  function DecodeAttr(s: seq<byte>): Option<(Attr, seq<byte>)> {
    match DecodeField(s)
    case None => None
    case Some(name) =>
      if name.kind % TYPEMASK != ATTRNAME then None else
      match DecodeField(name.rest)
      case None => None
      case Some(f) =>
        if f.kind % TYPEMASK == INT then
          if |f.value| != 4 then None else Some((IntAttr(name.value, N32(f.value, 0)), f.rest))
        else if f.kind % TYPEMASK == STRING then Some((StrAttr(name.value, f.value), f.rest))
        else None
  }

  function DecodeAttrs(s: seq<byte>, n: nat): Option<(seq<Attr>, seq<byte>)> {
    if n == 0 then Some(([], s)) else
    match DecodeAttrs(s, n - 1)
    case None => None
    case Some((attrs, rest)) =>
      match DecodeAttr(rest)
      case None => None
      case Some((a, rest')) => Some((attrs + [a], rest'))
  }

  function DecodeBody(s: seq<byte>): Option<(Option<seq<byte>>, seq<byte>)> {
    match DecodeField(s)
    case None => None
    case Some(f) =>
      if f.kind % TYPEMASK == BODY then Some((Some(f.value), f.rest))
      else if f.kind % TYPEMASK == EMPTYBODY && |f.value| == 4 then Some((None, f.rest))
      else None
  }

  // The end marker is not checked for its type.
  function DecodeEnd(s: seq<byte>): Option<seq<byte>> {
    match DecodeInt(s)
    case None => None
    case Some(f) => if N32(f.value, 0) != EOF_MARK then None else Some(f.rest)
  }

  function DecodeTrailer(attrs: seq<Attr>, s: seq<byte>): Option<(Message, seq<byte>)> {
    match DecodeBody(s)
    case None => None
    case Some((body, s')) =>
      match DecodeEnd(s')
      case None => None
      case Some(rest) => Some((Message(attrs, body), rest))
  }

  function DecodeCounted(s: seq<byte>): Option<(Message, seq<byte>)> {
    match DecodeInt(s)
    case None => None
    case Some(count) =>
      if count.kind != ATTRCOUNT then None else
      match DecodeAttrs(count.rest, N32(count.value, 0))
      case None => None
      case Some((attrs, s')) => DecodeTrailer(attrs, s')
  }

  function DecodeMessage(s: seq<byte>): Option<(Message, seq<byte>)> {
    match DecodeInt(s)
    case None => None
    case Some(magic) => if N32(magic.value, 0) != MAGIC then None else DecodeCounted(magic.rest)
  }

  // ---- decoding undoes encoding ----

  lemma FieldBack(kind: u32, v: seq<byte>, rest: seq<byte>)
    requires Short(v)
    ensures DecodeField(EncodeString(kind, v) + rest) == Some(Field(kind, v, rest))
  {
    var s := EncodeString(kind, v) + rest;
    N32OfBE32(s, 0, kind);
    N32OfBE32(s, 4, |v|);
    assert s[8..8 + |v|] == v && s[8 + |v|..] == rest;
  }

  lemma IntBack(kind: u32, value: u32, rest: seq<byte>)
    ensures DecodeInt(EncodeInt(kind, value) + rest) == Some(Field(kind, BE32(value), rest))
    ensures N32(BE32(value), 0) == value
  {
    FieldBack(kind, BE32(value), rest);
    N32OfBE32(BE32(value), 0, value);
  }

  lemma AttrBack(a: Attr, rest: seq<byte>)
    requires SendableAttr(a)
    ensures DecodeAttr(EncodeAttr(a) + rest) == Some((a, rest))
  {
    hide EncodeString;
    hide EncodeInt;
    hide DecodeField;
    hide N32;
    var f := if a.StrAttr? then EncodeString(STRING, a.text) else EncodeInt(INT, a.value);
    assert EncodeAttr(a) + rest == EncodeString(ATTRNAME, a.name) + (f + rest);
    FieldBack(ATTRNAME, a.name, f + rest);
    if a.StrAttr? {
      FieldBack(STRING, a.text, rest);
    } else {
      IntBack(INT, a.value, rest);
    }
  }

  lemma AttrsNext(s: seq<byte>, n: nat, attrs: seq<Attr>, mid: seq<byte>, a: Attr, rest: seq<byte>)
    requires DecodeAttrs(s, n) == Some((attrs, mid)) && DecodeAttr(mid) == Some((a, rest))
    ensures DecodeAttrs(s, n + 1) == Some((attrs + [a], rest))
  {
  }

  lemma SnocBack(front: seq<byte>, last: seq<byte>, rest: seq<byte>, n: nat, attrs: seq<Attr>, a: Attr)
    requires DecodeAttrs(front + (last + rest), n) == Some((attrs, last + rest))
    requires DecodeAttr(last + rest) == Some((a, rest))
    ensures DecodeAttrs(front + last + rest, n + 1) == Some((attrs + [a], rest))
  {
    Regroup(front, last, rest);
    AttrsNext(front + (last + rest), n, attrs, last + rest, a, rest);
  }

  lemma {:induction false} AttrsBack(attrs: seq<Attr>, k: nat, rest: seq<byte>)
    requires k <= |attrs| && forall i :: 0 <= i < |attrs| ==> SendableAttr(attrs[i])
    ensures DecodeAttrs(EncodeAttrs(attrs[..k]) + rest, k) == Some((attrs[..k], rest))
  {
    if k == 0 {
      assert [] + rest == rest;
    } else {
      AttrsBack(attrs, k - 1, EncodeAttr(attrs[k - 1]) + rest);
      AttrBack(attrs[k - 1], rest);
      SnocBack(EncodeAttrs(attrs[..k - 1]), EncodeAttr(attrs[k - 1]), rest, k - 1, attrs[..k - 1], attrs[k - 1]);
      AttrsGrow(attrs, k - 1);
      TakeMore(attrs, k - 1);
    }
  }

  lemma TakeMore<T>(s: seq<T>, k: nat)
    requires k < |s|
    ensures s[..k] + [s[k]] == s[..k + 1]
  {
  }

  lemma Regroup<T>(a: seq<T>, b: seq<T>, c: seq<T>)
    ensures a + b + c == a + (b + c)
  {
  }

  lemma BodyBack(body: Option<seq<byte>>, rest: seq<byte>)
    requires body.Some? ==> Short(body.value)
    ensures DecodeBody(EncodeBody(body) + rest) == Some((body, rest))
  {
    if body.Some? {
      FieldBack(BODY, body.value, rest);
    } else {
      IntBack(EMPTYBODY, 0, rest);
    }
  }

  lemma TrailerBack(attrs: seq<Attr>, body: Option<seq<byte>>, rest: seq<byte>)
    requires body.Some? ==> Short(body.value)
    ensures DecodeTrailer(attrs, EncodeTrailer(body) + rest) == Some((Message(attrs, body), rest))
  {
    Regroup(EncodeBody(body), EncodeInt(MARKER_TYPE, EOF_MARK), rest);
    BodyBack(body, EncodeInt(MARKER_TYPE, EOF_MARK) + rest);
    IntBack(MARKER_TYPE, EOF_MARK, rest);
  }

  lemma CountedBack(m: Message, rest: seq<byte>)
    requires Sendable(m)
    ensures DecodeCounted(EncodeCounted(m) + rest) == Some((m, rest))
  {
    var t := EncodeTrailer(m.body);
    Regroup(EncodeInt(ATTRCOUNT, |m.attrs|), EncodeAttrs(m.attrs) + t, rest);
    Regroup(EncodeAttrs(m.attrs), t, rest);
    IntBack(ATTRCOUNT, |m.attrs|, EncodeAttrs(m.attrs) + (t + rest));
    AttrsBack(m.attrs, |m.attrs|, t + rest);
    assert m.attrs[..|m.attrs|] == m.attrs;
    TrailerBack(m.attrs, m.body, rest);
  }

  // Every message that can be sent is received, whatever follows it on the stream.
  lemma MessageBack(m: Message, rest: seq<byte>)
    requires Sendable(m)
    ensures DecodeMessage(EncodeMessage(m) + rest) == Some((m, rest))
  {
    Regroup(EncodeInt(MARKER_TYPE, MAGIC), EncodeCounted(m), rest);
    IntBack(MARKER_TYPE, MAGIC, EncodeCounted(m) + rest);
    CountedBack(m, rest);
  }

  // No message is a prefix of another one, so messages on one stream are told apart.
  lemma NoPrefix(m: Message, m': Message)
    requires Sendable(m) && Sendable(m') && EncodeMessage(m) <= EncodeMessage(m')
    ensures m == m'
  {
    hide EncodeMessage;
    hide DecodeMessage;
    hide Sendable;
    var rest := EncodeMessage(m')[|EncodeMessage(m)|..];
    assert EncodeMessage(m') + [] == EncodeMessage(m) + rest;
    MessageBack(m, rest);
    MessageBack(m', []);
  }

  // ---- the bytes on the wire ----

  // Every message begins with the mark of a message and the number of its attributes.
  lemma LeadingBytes(m: Message)
    requires Sendable(m)
    ensures var b := EncodeMessage(m);
      && |b| >= 36
      && b[..20] == [0, 0, 0, 1, 0, 0, 0, 4, 0, 0x17, 0x34, 0x14, 0, 0, 0, 2, 0, 0, 0, 4]
      && b[20..24] == BE32(|m.attrs|)
      && b[|b| - 12..] == [0, 0, 0, 1, 0, 0, 0, 4, 0x22, 0x22, 0x11, 0x11]
  {
    hide EncodeAttrs;
    hide EncodeBody;
    MarkBytes();
    var a, n := EncodeInt(MARKER_TYPE, MAGIC), EncodeInt(ATTRCOUNT, |m.attrs|);
    var attrs, body, end := EncodeAttrs(m.attrs), EncodeBody(m.body), EncodeInt(MARKER_TYPE, EOF_MARK);
    assert EncodeMessage(m) == a + n + attrs + body + end;
    assert n == Header(ATTRCOUNT, 4) + BE32(|m.attrs|);
  }

  lemma MarkBytes()
    ensures EncodeInt(MARKER_TYPE, MAGIC) == [0, 0, 0, 1, 0, 0, 0, 4, 0, 0x17, 0x34, 0x14]
    ensures EncodeInt(MARKER_TYPE, EOF_MARK) == [0, 0, 0, 1, 0, 0, 0, 4, 0x22, 0x22, 0x11, 0x11]
    ensures Header(ATTRCOUNT, 4) == [0, 0, 0, 2, 0, 0, 0, 4]
  {
  }

  // The string "b" under the name "a", the integer 1 under the name "i", and the two kinds of body.
  lemma FieldBytes()
    ensures EncodeAttr(StrAttr([97], [98])) == [0, 0, 0, 4, 0, 0, 0, 1, 97, 0, 0, 0, 8, 0, 0, 0, 1, 98]
    ensures EncodeAttr(IntAttr([105], 1)) == [0, 0, 0, 4, 0, 0, 0, 1, 105, 0, 0, 0, 16, 0, 0, 0, 4, 0, 0, 0, 1]
    ensures EncodeBody(Some([98])) == [0, 0, 0x10, 0, 0, 0, 0, 1, 98]
    ensures EncodeBody(None) == [0, 0, 0x10, 1, 0, 0, 0, 4, 0, 0, 0, 0]
  {
    StringBytes();
    hide EncodeString;
    hide EncodeInt;
  }

  lemma StringBytes()
    ensures EncodeString(ATTRNAME, [97]) == [0, 0, 0, 4, 0, 0, 0, 1, 97]
    ensures EncodeString(ATTRNAME, [105]) == [0, 0, 0, 4, 0, 0, 0, 1, 105]
    ensures EncodeString(STRING, [98]) == [0, 0, 0, 8, 0, 0, 0, 1, 98]
    ensures EncodeInt(INT, 1) == [0, 0, 0, 16, 0, 0, 0, 4, 0, 0, 0, 1]
    ensures EncodeString(BODY, [98]) == [0, 0, 0x10, 0, 0, 0, 0, 1, 98]
    ensures EncodeInt(EMPTYBODY, 0) == [0, 0, 0x10, 1, 0, 0, 0, 4, 0, 0, 0, 0]
  {
  }

  // ---- the stream ----

  class Channel {
    var bytes: seq<byte>

    constructor ()
      ensures bytes == []
    {
      bytes := [];
    }

    method Write(b: seq<byte>)
      modifies this
      ensures bytes == old(bytes) + b
    {
      bytes := bytes + b;
    }

    // nbread: fewer bytes than asked for when the peer has closed the stream.
    method Read(n: nat) returns (b: seq<byte>)
      modifies this
      ensures |b| == if n <= old(|bytes|) then n else old(|bytes|)
      ensures old(bytes) == b + bytes
    {
      var k := if n <= |bytes| then n else |bytes|;
      b := bytes[..k];
      bytes := bytes[k..];
    }

    method SendString(kind: u32, s: seq<byte>)
      requires Short(s)
      modifies this
      ensures bytes == old(bytes) + EncodeString(kind, s)
    {
      Write(BE32(kind));
      Write(BE32(|s|));
      Write(s);
      assert bytes == old(bytes) + EncodeString(kind, s);
    }

    method SendInt(kind: u32, value: u32)
      modifies this
      ensures bytes == old(bytes) + EncodeInt(kind, value)
    {
      SendString(kind, BE32(value));
    }

    // Attributes without a name are neither counted nor sent.
    method SendData(slots: seq<Slot>, body: Option<seq<byte>>)
      requires Sendable(Message(WithNames(slots), body))
      modifies this
      ensures bytes == old(bytes) + EncodeMessage(Message(WithNames(slots), body))
    {
      hide WithNames;
      hide EncodeInt;
      hide EncodeTrailer;
      SendInt(MARKER_TYPE, MAGIC);
      var attrcount := CountNamed(slots);
      SendInt(ATTRCOUNT, attrcount);
      if attrcount > 0 {
        SendAttrs(slots);
      }
      SendTrailer(body);
      Chain(old(bytes), EncodeInt(MARKER_TYPE, MAGIC), EncodeInt(ATTRCOUNT, attrcount), EncodeAttrs(WithNames(slots)),
            EncodeTrailer(body));
    }

    method CountNamed(slots: seq<Slot>) returns (attrcount: nat)
      ensures attrcount == |WithNames(slots)|
    {
      attrcount := 0;
      for i := 0 to |slots|
        invariant attrcount == |WithNames(slots[..i])|
      {
        NamedNext(slots, i);
        if slots[i].named {
          attrcount := attrcount + 1;
        }
      }
      assert slots[..|slots|] == slots;
    }

    // The body, or the mark that there is none, and the end marker.
    method SendTrailer(body: Option<seq<byte>>)
      requires body.Some? ==> Short(body.value)
      modifies this
      ensures bytes == old(bytes) + EncodeTrailer(body)
    {
      if body.Some? {
        SendString(BODY, body.value);
      } else {
        SendInt(EMPTYBODY, 0);
      }
      SendInt(MARKER_TYPE, EOF_MARK);
      Regroup(old(bytes), EncodeBody(body), EncodeInt(MARKER_TYPE, EOF_MARK));
    }

    method SendAttr(a: Attr)
      requires SendableAttr(a)
      modifies this
      ensures bytes == old(bytes) + EncodeAttr(a)
    {
      SendString(ATTRNAME, a.name);
      if a.StrAttr? {
        SendString(STRING, a.text);
        Regroup(old(bytes), EncodeString(ATTRNAME, a.name), EncodeString(STRING, a.text));
      } else {
        SendInt(INT, a.value);
        Regroup(old(bytes), EncodeString(ATTRNAME, a.name), EncodeInt(INT, a.value));
      }
    }

    // One pass of the sending loop.
    method SendSlot(slots: seq<Slot>, i: nat)
      requires i < |slots| && AllSendable(WithNames(slots[..i])) && AllSendable(WithNames(slots[..i + 1]))
      modifies this
      ensures exists more ::
        bytes == old(bytes) + more && EncodeAttrs(WithNames(slots[..i + 1])) == EncodeAttrs(WithNames(slots[..i])) + more
    {
      hide WithNames;
      hide EncodeAttrs;
      hide EncodeAttr;
      ghost var more := [];
      NamedNext(slots, i);
      if slots[i].named {
        EncodeOneMore(WithNames(slots[..i]), slots[i].attr);
        SendAttr(slots[i].attr);
        more := EncodeAttr(slots[i].attr);
      } else {
        assert WithNames(slots[..i]) + [] == WithNames(slots[..i]);
      }
      assert bytes == old(bytes) + more;
      assert EncodeAttrs(WithNames(slots[..i + 1])) == EncodeAttrs(WithNames(slots[..i])) + more;
    }

    method SendAttrs(slots: seq<Slot>)
      requires AllSendable(WithNames(slots))
      modifies this
      ensures bytes == old(bytes) + EncodeAttrs(WithNames(slots))
    {
      hide WithNames;
      ghost var before := bytes;
      NothingNamed(slots);
      for i := 0 to |slots|
        invariant AllSendable(WithNames(slots[..i])) && bytes == before + EncodeAttrs(WithNames(slots[..i]))
      {
        hide EncodeAttrs;
        PrefixSendable(slots, i + 1);
        ghost var was := bytes;
        SendSlot(slots, i);
        ghost var more :| bytes == was + more
          && EncodeAttrs(WithNames(slots[..i + 1])) == EncodeAttrs(WithNames(slots[..i])) + more;
        Regroup(before, EncodeAttrs(WithNames(slots[..i])), more);
      }
      assert slots[..|slots|] == slots;
    }

    // Type and length, then the value.
    method RecvField() returns (f: Option<Field>)
      modifies this
      ensures f == DecodeField(old(bytes))
      ensures f.Some? ==> bytes == f.value.rest
    {
      ghost var before := bytes;
      var head := Read(8);
      if |head| != 8 {
        return None;
      }
      assert before[..8] == head;
      HeaderSame(before, head);
      var value := Read(N32(head, 4));
      if |value| != N32(head, 4) {
        return None;
      }
      assert before == head + (value + bytes);
      f := Some(Field(N32(head, 0), value, bytes));
      assert before[8..8 + |value|] == value && before[8 + |value|..] == bytes;
    }

    method RecvInt() returns (f: Option<Field>)
      modifies this
      ensures f == DecodeInt(old(bytes))
      ensures f.Some? ==> bytes == f.value.rest
    {
      f := RecvField();
      if f.Some? && |f.value.value| != 4 {
        f := None;
      }
    }

    method RecvAttr() returns (a: Option<Attr>)
      modifies this
      ensures DecodeAttr(old(bytes)) == if a.Some? then Some((a.value, bytes)) else None
    {
      var name := RecvField();
      if name.None? || name.value.kind % TYPEMASK != ATTRNAME {
        return None;
      }
      var f := RecvField();
      if f.None? {
        return None;
      }
      var kind := f.value.kind % TYPEMASK;
      if kind == INT {
        a := if |f.value.value| != 4 then None else Some(IntAttr(name.value.value, N32(f.value.value, 0)));
      } else if kind == STRING {
        a := Some(StrAttr(name.value.value, f.value.value));
      } else {
        a := None;
      }
    }

    method RecvBody() returns (r: Option<Option<seq<byte>>>)
      modifies this
      ensures DecodeBody(old(bytes)) == if r.Some? then Some((r.value, bytes)) else None
    {
      var f := RecvField();
      if f.None? {
        return None;
      }
      var kind := f.value.kind % TYPEMASK;
      if kind == BODY {
        r := Some(Some(f.value.value));
      } else if kind == EMPTYBODY && |f.value.value| == 4 {
        r := Some(None);
      } else {
        r := None;
      }
    }

    // One pass of the attribute loop; s is the stream before the first attribute.
    method RecvNext(ghost s: seq<byte>, ghost i: nat, attrs: seq<Attr>) returns (r: Option<seq<Attr>>)
      requires DecodeAttrs(s, i) == Some((attrs, bytes))
      modifies this
      ensures DecodeAttrs(s, i + 1) == if r.Some? then Some((r.value, bytes)) else None
    {
      ghost var mid := bytes;
      var a := RecvAttr();
      if a.None? {
        return None;
      }
      AttrsNext(s, i, attrs, mid, a.value, bytes);
      r := Some(attrs + [a.value]);
    }

    method RecvAttrs(n: nat) returns (r: Option<seq<Attr>>)
      modifies this
      ensures DecodeAttrs(old(bytes), n) == if r.Some? then Some((r.value, bytes)) else None
    {
      ghost var before := bytes;
      r := Some([]);
      for i := 0 to n
        invariant r.Some? && DecodeAttrs(before, i) == Some((r.value, bytes))
      {
        r := RecvNext(before, i, r.value);
        if r.None? {
          AttrsFail(before, i + 1, n);
          return;
        }
      }
    }

    method RecvTrailer(attrs: seq<Attr>) returns (r: Option<Message>)
      modifies this
      ensures DecodeTrailer(attrs, old(bytes)) == if r.Some? then Some((r.value, bytes)) else None
    {
      var body := RecvBody();
      if body.None? {
        return None;
      }
      var end := RecvInt();
      if end.None? || N32(end.value.value, 0) != EOF_MARK {
        return None;
      }
      r := Some(Message(attrs, body.value));
    }

    method RecvCounted() returns (r: Option<Message>)
      modifies this
      ensures DecodeCounted(old(bytes)) == if r.Some? then Some((r.value, bytes)) else None
    {
      var count := RecvInt();
      if count.None? || count.value.kind != ATTRCOUNT {
        return None;
      }
      var attrs := RecvAttrs(N32(count.value.value, 0));
      if attrs.None? {
        return None;
      }
      r := RecvTrailer(attrs.value);
    }

    method RecvData() returns (r: Option<Message>)
      modifies this
      ensures DecodeMessage(old(bytes)) == if r.Some? then Some((r.value, bytes)) else None
    {
      var magic := RecvInt();
      if magic.None? || N32(magic.value.value, 0) != MAGIC {
        return None;
      }
      r := RecvCounted();
    }
  }

  lemma Chain<T>(s: seq<T>, a: seq<T>, b: seq<T>, c: seq<T>, d: seq<T>)
    ensures s + a + b + c + d == s + (a + (b + (c + d)))
  {
  }

  lemma NothingNamed(slots: seq<Slot>)
    ensures AllSendable(WithNames(slots[..0])) && EncodeAttrs(WithNames(slots[..0])) == []
  {
  }

  predicate AllSendable(attrs: seq<Attr>) {
    forall i :: 0 <= i < |attrs| ==> SendableAttr(attrs[i])
  }

  lemma {:induction false} PrefixSendable(slots: seq<Slot>, k: nat)
    requires k <= |slots| && AllSendable(WithNames(slots))
    ensures AllSendable(WithNames(slots[..k]))
    decreases |slots| - k
  {
    if k == |slots| {
      assert slots[..k] == slots;
    } else {
      PrefixSendable(slots, k + 1);
      NamedNext(slots, k);
      var all, front := WithNames(slots[..k + 1]), WithNames(slots[..k]);
      assert forall i :: 0 <= i < |front| ==> front[i] == all[i];
    }
  }

  lemma EncodeOneMore(attrs: seq<Attr>, a: Attr)
    requires AllSendable(attrs + [a])
    ensures AllSendable(attrs) && SendableAttr(a)
    ensures EncodeAttrs(attrs + [a]) == EncodeAttrs(attrs) + EncodeAttr(a)
  {
    var all := attrs + [a];
    assert forall i :: 0 <= i < |attrs| ==> attrs[i] == all[i];
    assert all[|attrs|] == a && all[..|all| - 1] == attrs;
  }

  lemma AttrsGrow(attrs: seq<Attr>, i: nat)
    requires i < |attrs| && forall k :: 0 <= k < |attrs| ==> SendableAttr(attrs[k])
    ensures EncodeAttrs(attrs[..i + 1]) == EncodeAttrs(attrs[..i]) + EncodeAttr(attrs[i])
  {
    var f := attrs[..i + 1];
    assert f[..|f| - 1] == attrs[..i] && f[|f| - 1] == attrs[i];
  }

  lemma HeaderSame(s: seq<byte>, head: seq<byte>)
    requires |head| == 8 && head <= s
    ensures N32(s, 0) == N32(head, 0) && N32(s, 4) == N32(head, 4)
  {
    assert forall k :: 0 <= k < 8 ==> s[k] == head[k];
  }

  lemma {:induction false} AttrsFail(s: seq<byte>, i: nat, n: nat)
    requires i <= n && DecodeAttrs(s, i).None?
    ensures DecodeAttrs(s, n).None?
  {
    if i < n {
      AttrsFail(s, i, n - 1);
    }
  }
}
