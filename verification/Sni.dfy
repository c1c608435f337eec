/** The server name of a TLS ClientHello. */
module Sni {
  import opened Common
  import opened Cursors

  const MAX_TLS_EXTENSIONS := 16

  // ---------------------------------------------------------- specification

  /** Position after the fixed part of a ClientHello: record header, handshake header, version and random. */
  function HelloStart(c: Cursor, offset: nat, end: nat): Option<nat> {
    if !Within(offset, 5, end) || ReadU8(c, offset) != Some(0x16) then None
    else
      match ReadU16(c, offset + 3)
      case None => None
      case Some(recordLen) =>
        var p := offset + 5;
        if !Within(p, recordLen, end) || !Within(p, 4, end) || ReadU8(c, p) != Some(0x01) then None
        else
          match (ReadU8(c, p + 1), ReadU8(c, p + 2), ReadU8(c, p + 3))
          case (Some(h2), Some(h1), Some(h0)) =>
            var handshakeLen: int := h2 as int * 0x1_0000 + h1 as int * 0x100 + h0;
            if handshakeLen < 34 || !Within(p + 4, handshakeLen, end) then None else Some(p + 38)
          case _ => None
  }

  /** Position after a vector with a one-byte length. */
  function SkipVector8(c: Cursor, pos: nat, end: nat): Option<nat> {
    match ReadU8(c, pos)
    case None => None
    case Some(len) => if Within(pos + 1, len, end) then Some(pos + 1 + len) else None
  }

  /** Content of a vector with a two-byte length: where it starts and ends. */
  function Vector16(c: Cursor, pos: nat, end: nat): Option<(nat, nat)> {
    if !Within(pos, 2, end) then None
    else
      match ReadU16(c, pos)
      case None => None
      case Some(len) => if Within(pos + 2, len, end) then Some((pos + 2, pos + 2 + len)) else None
  }

  /** The extension block: after the session id, the cipher suites and the compression methods. */
  function Extensions(c: Cursor, offset: nat, end: nat): Option<(nat, nat)> {
    match HelloStart(c, offset, end) case None => None case Some(session) =>
    match SkipVector8(c, session, end) case None => None case Some(ciphers) =>
    match Vector16(c, ciphers, end) case None => None case Some(suites) =>
    if !Within(suites.1, 1, end) then None else
    match SkipVector8(c, suites.1, end) case None => None case Some(extensions) =>
    Vector16(c, extensions, end)
  }

  /** Length of the first host name of a server_name extension of `len` bytes at `pos`. */
  function HostNameLen(c: Cursor, pos: nat, len: nat): Option<u16> {
    if len < 5 then None else
    match ReadU16(c, pos) case None => None case Some(listLen) =>
    if listLen + 2 > len || ReadU8(c, pos + 2) != Some(0) then None else
    ReadU16(c, pos + 3)
  }

  function HostName(c: Cursor, pos: nat, len: nat, end: nat): Option<seq<byte>> {
    match HostNameLen(c, pos, len) case None => None case Some(nameLen) =>
    if nameLen == 0 || nameLen > DOMAIN_MAX_LEN || !Within(pos + 5, nameLen, end) || !Allowed(c, pos + 5, nameLen)
    then None
    else Some(c.data[pos + 5..pos + 5 + nameLen])
  }

  function FindName(c: Cursor, pos: nat, end: nat, budget: nat): Option<seq<byte>>
    decreases end - pos
  {
    if budget == 0 || !Within(pos, 4, end) then None
    else
      var kind, len := ReadU16(c, pos), ReadU16(c, pos + 2);
      if kind.None? || len.None? || !Within(pos + 4, len.value, end) then None
      else if kind.value == 0 then HostName(c, pos + 4, len.value, end)
      else FindName(c, pos + 4 + len.value, end, budget - 1)
  }

  function SniName(c: Cursor, offset: nat, end: nat): Option<seq<byte>> {
    match Extensions(c, offset, end)
    case None => None
    case Some(block) => FindName(c, block.0, block.1, MAX_TLS_EXTENSIONS)
  }

  // ----------------------------------------------------------------- parser

  method ReadHostName(c: Cursor, position: nat, extensionLen: nat, extensionsEnd: nat, buffer: array<byte>)
      returns (r: Option<nat>)
    requires buffer.Length == DOMAIN_MAX_LEN
    modifies buffer
    ensures var name := HostName(c, position, extensionLen, extensionsEnd);
      && (r.Some? <==> name.Some?)
      && (r.Some? ==> r.value <= DOMAIN_MAX_LEN && buffer[..r.value] == name.value)
  {
    hide ReadU8, ReadU16;
    if extensionLen < 5 {
      return None;
    }
    var listLen := ReadU16(c, position);
    if listLen.None? || listLen.value + 2 > extensionLen {
      return None;
    }
    var nameType := ReadU8(c, position + 2);
    if nameType.None? || nameType.value != 0 {
      return None;
    }
    var nameLen := ReadU16(c, position + 3);
    if nameLen.None? || nameLen.value == 0 || nameLen.value > DOMAIN_MAX_LEN
       || !Within(position + 5, nameLen.value, extensionsEnd)
    {
      return None;
    }
    var ok := CopyBytes(c, position + 5, buffer, 0, nameLen.value);
    if !ok {
      return None;
    }
    r := Some(nameLen.value);
  }

  method LocateExtensions(c: Cursor, offset: nat, end: nat) returns (r: Option<(nat, nat)>)
    ensures r == Extensions(c, offset, end)
  {
    hide ReadU8, ReadU16;
    if !Within(offset, 5, end) {
      return None;
    }
    var contentType := ReadU8(c, offset);
    if contentType.None? || contentType.value != 0x16 {
      return None;
    }
    var recordLen := ReadU16(c, offset + 3);
    if recordLen.None? {
      return None;
    }
    var position: nat := offset + 5;
    if !Within(position, recordLen.value, end) || !Within(position, 4, end) {
      return None;
    }
    var messageType := ReadU8(c, position);
    if messageType.None? || messageType.value != 0x01 {
      return None;
    }
    var h2, h1, h0 := ReadU8(c, position + 1), ReadU8(c, position + 2), ReadU8(c, position + 3);
    if h2.None? || h1.None? || h0.None? {
      return None;
    }
    var handshakeLen: int := h2.value as int * 0x1_0000 + h1.value as int * 0x100 + h0.value;
    if handshakeLen < 34 || !Within(position + 4, handshakeLen, end) {
      return None;
    }
    position := position + 4 + 2 + 32;

    var sessionLen := ReadU8(c, position);
    if sessionLen.None? {
      return None;
    }
    position := position + 1;
    if !Within(position, sessionLen.value, end) {
      return None;
    }
    position := position + sessionLen.value;

    if !Within(position, 2, end) {
      return None;
    }
    var cipherLen := ReadU16(c, position);
    if cipherLen.None? {
      return None;
    }
    position := position + 2;
    if !Within(position, cipherLen.value, end) {
      return None;
    }
    position := position + cipherLen.value;

    if !Within(position, 1, end) {
      return None;
    }
    var compressionLen := ReadU8(c, position);
    if compressionLen.None? {
      return None;
    }
    position := position + 1;
    if !Within(position, compressionLen.value, end) {
      return None;
    }
    position := position + compressionLen.value;

    if !Within(position, 2, end) {
      return None;
    }
    var extensionsLen := ReadU16(c, position);
    if extensionsLen.None? {
      return None;
    }
    position := position + 2;
    if !Within(position, extensionsLen.value, end) {
      return None;
    }
    r := Some((position, position + extensionsLen.value));
  }

  method ExtractTlsSni(c: Cursor, offset: nat, end: nat, buffer: array<byte>) returns (r: Option<nat>)
    requires buffer.Length == DOMAIN_MAX_LEN
    modifies buffer
    ensures var name := SniName(c, offset, end);
      && (r.Some? <==> name.Some?)
      && (r.Some? ==> r.value <= DOMAIN_MAX_LEN && buffer[..r.value] == name.value)
  {
    hide Extensions, HostName, ReadU16;
    var block := LocateExtensions(c, offset, end);
    if block.None? {
      return None;
    }
    var position: nat, extensionsEnd := block.value.0, block.value.1;
    ghost var budget: nat := MAX_TLS_EXTENSIONS;
    for i := 0 to MAX_TLS_EXTENSIONS
      invariant budget == MAX_TLS_EXTENSIONS - i
      invariant SniName(c, offset, end) == FindName(c, position, extensionsEnd, budget)
    {
      budget := budget - 1;
      if !Within(position, 4, extensionsEnd) {
        return None;
      }
      var extensionType, extensionLen := ReadU16(c, position), ReadU16(c, position + 2);
      if extensionType.None? || extensionLen.None? {
        return None;
      }
      position := position + 4;
      if !Within(position, extensionLen.value, extensionsEnd) {
        return None;
      }
      if extensionType.value == 0 {
        r := ReadHostName(c, position, extensionLen.value, extensionsEnd, buffer);
        return;
      }
      position := position + extensionLen.value;
    }
    r := None;
  }

  // ------------------------------------------------------------ independence

  lemma HelloStartInWindow(c: Cursor, d: Cursor, offset: nat, end: nat)
    requires Agree(c, d, offset, end)
    ensures HelloStart(c, offset, end) == HelloStart(d, offset, end)
    ensures HelloStart(c, offset, end).Some? ==> offset <= HelloStart(c, offset, end).value <= end
  {
    hide ReadU8, ReadU16, Agree;
    AgreeReads(c, d, offset, end, offset);
    AgreeReads(c, d, offset, end, offset + 3);
    AgreeReads(c, d, offset, end, offset + 5);
    AgreeReads(c, d, offset, end, offset + 6);
    AgreeReads(c, d, offset, end, offset + 7);
    AgreeReads(c, d, offset, end, offset + 8);
  }

  /** The length byte may stand at `end` itself; then nothing fits and the result is still the same. */
  lemma SkipVector8InWindow(c: Cursor, d: Cursor, offset: nat, pos: nat, end: nat)
    requires Agree(c, d, offset, end) && offset <= pos <= end
    ensures SkipVector8(c, pos, end) == SkipVector8(d, pos, end)
    ensures SkipVector8(c, pos, end).Some? ==> pos < SkipVector8(c, pos, end).value <= end
  {
    hide ReadU8, Agree;
    AgreeReads(c, d, offset, end, pos);
  }

  lemma Vector16InWindow(c: Cursor, d: Cursor, offset: nat, pos: nat, end: nat)
    requires Agree(c, d, offset, end) && offset <= pos
    ensures Vector16(c, pos, end) == Vector16(d, pos, end)
    ensures Vector16(c, pos, end).Some? ==> pos < Vector16(c, pos, end).value.0 <= Vector16(c, pos, end).value.1 <= end
  {
    hide ReadU16, Agree;
    AgreeReads(c, d, offset, end, pos);
  }

  lemma ExtensionsInWindow(c: Cursor, d: Cursor, offset: nat, end: nat)
    requires Agree(c, d, offset, end)
    ensures Extensions(c, offset, end) == Extensions(d, offset, end)
    ensures Extensions(c, offset, end).Some? ==>
      offset <= Extensions(c, offset, end).value.0 <= Extensions(c, offset, end).value.1 <= end
  {
    hide Agree, HelloStart, SkipVector8, Vector16;
    HelloStartInWindow(c, d, offset, end);
    var session := HelloStart(c, offset, end);
    if session.None? { return; }
    SkipVector8InWindow(c, d, offset, session.value, end);
    var ciphers := SkipVector8(c, session.value, end);
    if ciphers.None? { return; }
    Vector16InWindow(c, d, offset, ciphers.value, end);
    var suites := Vector16(c, ciphers.value, end);
    if suites.None? { return; }
    SkipVector8InWindow(c, d, offset, suites.value.1, end);
    var extensions := SkipVector8(c, suites.value.1, end);
    if extensions.None? { return; }
    Vector16InWindow(c, d, offset, extensions.value, end);
  }

  lemma HostNameInWindow(c: Cursor, d: Cursor, offset: nat, pos: nat, len: nat, end: nat)
    requires Agree(c, d, offset, end) && offset <= pos && pos + len <= end
    ensures HostName(c, pos, len, end) == HostName(d, pos, len, end)
  {
    hide Agree, HostNameLen;
    HostNameLenInWindow(c, d, offset, pos, len, end);
    var nameLen := HostNameLen(c, pos, len);
    if nameLen.Some? && nameLen.value > 0 && Within(pos + 5, nameLen.value, end) {
      AgreeBytes(c, d, offset, end, pos + 5, nameLen.value);
    }
  }

  lemma HostNameLenInWindow(c: Cursor, d: Cursor, offset: nat, pos: nat, len: nat, end: nat)
    requires Agree(c, d, offset, end) && offset <= pos && pos + len <= end
    ensures HostNameLen(c, pos, len) == HostNameLen(d, pos, len)
  {
    hide Agree, ReadU8, ReadU16;
    if len >= 5 {
      AgreeReads(c, d, offset, end, pos);
      AgreeReads(c, d, offset, end, pos + 2);
      AgreeReads(c, d, offset, end, pos + 3);
    }
  }

  lemma {:induction false} FindNameInWindow(c: Cursor, d: Cursor, offset: nat, pos: nat, end: nat, budget: nat)
    requires Agree(c, d, offset, end) && offset <= pos
    ensures FindName(c, pos, end, budget) == FindName(d, pos, end, budget)
    decreases end - pos
  {
    hide Agree, ReadU16, HostName;
    if budget > 0 && Within(pos, 4, end) {
      AgreeReads(c, d, offset, end, pos);
      AgreeReads(c, d, offset, end, pos + 2);
      var len := ReadU16(c, pos + 2);
      if len.Some? && Within(pos + 4, len.value, end) {
        HostNameInWindow(c, d, offset, pos + 4, len.value, end);
        FindNameInWindow(c, d, offset, pos + 4 + len.value, end, budget - 1);
      }
    }
  }

  lemma AgreeWithin(c: Cursor, d: Cursor, offset: nat, end: nat, inner: nat)
    requires Agree(c, d, offset, end) && inner <= end
    ensures Agree(c, d, offset, inner)
  {
  }

  /** The name depends on the bytes of `[offset, end)` alone. */
  lemma SniInWindow(c: Cursor, d: Cursor, offset: nat, end: nat)
    requires Agree(c, d, offset, end)
    ensures SniName(c, offset, end) == SniName(d, offset, end)
  {
    hide Agree, Extensions, FindName;
    ExtensionsInWindow(c, d, offset, end);
    var block := Extensions(c, offset, end);
    if block.Some? {
      AgreeWithin(c, d, offset, end, block.value.1);
      FindNameInWindow(c, d, offset, block.value.0, block.value.1, MAX_TLS_EXTENSIONS);
    }
  }

  // -------------------------------------------------------- print and parse

  datatype Extension = Extension(kind: u16, body: seq<byte>) {
    ghost predicate Valid() {
      kind != 0 && |body| < 0x1_0000
    }

    ghost function Print(): (p: seq<byte>)
      requires Valid()
      ensures |p| == 4 + |body|
    {
      Be16(kind) + Vec16(body)
    }
  }

  ghost function PrintExtensions(es: seq<Extension>): seq<byte>
    requires forall e :: e in es ==> e.Valid()
  {
    if es == [] then []
    else
      assert es[0] in es;
      assert forall e :: e in es[1..] ==> e in es;
      es[0].Print() + PrintExtensions(es[1..])
  }

  /** A server_name extension that declares `declared` bytes and a list of `listLen`. */
  datatype NameEntry = NameEntry(declared: u16, listLen: u16, name: seq<byte>) {
    ghost predicate Valid() {
      5 <= declared && listLen + 2 <= declared && |name| < 0x1_0000
    }

    ghost function Print(): (p: seq<byte>)
      requires Valid()
      ensures |p| == 9 + |name|
    {
      ([0, 0] + Be16(declared)) + (Be16(listLen) + [0]) + Vec16(name)
    }
  }

  /**
   * A ClientHello up to the end of its server name, with the lengths its record,
   * its handshake message and its extension block declare.
   */
  datatype Hello = Hello(
    recordVersion: seq<byte>, recordLen: u16, handshakeLen: nat, versionRandom: seq<byte>, session: seq<byte>,
    suites: seq<byte>, compression: seq<byte>, blockLen: u16, earlier: seq<Extension>, entry: NameEntry)
  {
    ghost predicate Valid() {
      && |recordVersion| == 2 && |versionRandom| == 34 && 34 <= handshakeLen < 0x100_0000
      && |session| < 256 && |suites| < 0x1_0000 && |compression| < 256
      && (forall e :: e in earlier ==> e.Valid()) && entry.Valid()
      && |PrintExtensions(earlier)| + Max(|entry.Print()|, 4 + entry.declared) <= blockLen
    }

    /** Whether what the lengths declare ends inside a window of `n` bytes. */
    ghost predicate Fits(n: int) {
      && 5 + recordLen <= n && 9 + handshakeLen <= n
      && 49 + |session| + |suites| + |compression| + blockLen <= n
    }

    ghost function Block(): seq<byte>
      requires Valid()
    {
      PrintExtensions(earlier) + entry.Print()
    }

    ghost function Body(): seq<byte>
      requires Valid()
    {
      versionRandom + Vec8(session) + Vec16(suites) + Vec8(compression) + (Be16(blockLen) + Block())
    }

    ghost function Print(): seq<byte>
      requires Valid()
    {
      ([0x16] + recordVersion + Be16(recordLen))
      + ([0x01] + ([handshakeLen / 0x1_0000] + Be16(handshakeLen % 0x1_0000))) + Body()
    }
  }

  lemma AtZeros(d: seq<byte>, pos: nat)
    requires At(d, pos, [0, 0])
    ensures ReadU16(Memory(d), pos) == Some(0)
  {
    assert d[pos..pos + 2][0] == d[pos] && d[pos..pos + 2][1] == d[pos + 1];
  }

  lemma NameEntryAt(d: seq<byte>, pos: nat, n: NameEntry)
    requires n.Valid() && At(d, pos, n.Print())
    ensures At(d, pos, [0, 0]) && At(d, pos + 2, Be16(n.declared)) && At(d, pos + 4, Be16(n.listLen))
    ensures At(d, pos + 6, [0]) && At(d, pos + 7, Be16(|n.name|)) && At(d, pos + 9, n.name)
  {
    hide Be16, At;
    var a, b, l := [0, 0], Be16(n.declared), Be16(n.listLen);
    AtSplit(d, pos, (a + b) + (l + [0]), Vec16(n.name));
    AtSplit(d, pos + 7, Be16(|n.name|), n.name);
    AtSplit(d, pos, a + b, l + [0]);
    AtSplit(d, pos + 4, l, [0]);
    AtSplit(d, pos, a, b);
  }

  lemma NameEntryRead(d: seq<byte>, pos: nat, n: NameEntry)
    requires n.Valid() && At(d, pos, n.Print())
    ensures ReadU16(Memory(d), pos) == Some(0) && ReadU16(Memory(d), pos + 2) == Some(n.declared)
    ensures ReadU16(Memory(d), pos + 4) == Some(n.listLen) && ReadU8(Memory(d), pos + 6) == Some(0)
    ensures ReadU16(Memory(d), pos + 7) == Some(|n.name|) && At(d, pos + 9, n.name)
  {
    hide Be16, ReadU8, ReadU16, At, NameEntry.Print;
    NameEntryAt(d, pos, n);
    AtZeros(d, pos);
    At16(d, pos + 2, n.declared);
    At16(d, pos + 4, n.listLen);
    AtByte(d, pos + 6, 0);
    At16(d, pos + 7, |n.name|);
  }

  lemma HostNameLenRead(d: seq<byte>, pos: nat, n: NameEntry)
    requires n.Valid() && At(d, pos, n.Print())
    ensures HostNameLen(Memory(d), pos + 4, n.declared) == Some(|n.name|)
  {
    hide Be16, ReadU8, ReadU16, At, NameEntry.Print;
    NameEntryRead(d, pos, n);
  }

  lemma AtAllowed(d: seq<byte>, pos: nat, s: seq<byte>)
    requires At(d, pos, s)
    ensures Allowed(Memory(d), pos, |s|) && d[pos..pos + |s|] == s
  {
  }

  lemma HostNameRead(d: seq<byte>, pos: nat, n: NameEntry, end: nat)
    requires n.Valid() && At(d, pos, n.Print()) && pos + |n.Print()| <= end
    ensures HostName(Memory(d), pos + 4, n.declared, end) ==
      if 1 <= |n.name| <= DOMAIN_MAX_LEN then Some(n.name) else None
  {
    hide HostNameLen, NameEntry.Print, At, Allowed, ReadU8, ReadU16;
    NameEntryRead(d, pos, n);
    HostNameLenRead(d, pos, n);
    AtAllowed(d, pos + 9, n.name);
  }

  lemma ExtensionRead(d: seq<byte>, pos: nat, e: Extension)
    requires e.Valid() && At(d, pos, e.Print())
    ensures ReadU16(Memory(d), pos) == Some(e.kind) && ReadU16(Memory(d), pos + 2) == Some(|e.body|)
  {
    hide Be16, ReadU16, At;
    AtSplit(d, pos, Be16(e.kind), Vec16(e.body));
    AtSplit(d, pos + 2, Be16(|e.body|), e.body);
    At16(d, pos, e.kind);
    At16(d, pos + 2, |e.body|);
  }

  lemma {:induction false} FindNameReads(
      d: seq<byte>, pos: nat, es: seq<Extension>, n: NameEntry, end: nat, budget: nat)
    requires (forall e :: e in es ==> e.Valid()) && n.Valid()
    requires At(d, pos, PrintExtensions(es) + n.Print())
    requires pos + |PrintExtensions(es)| + Max(|n.Print()|, 4 + n.declared) <= end
    ensures FindName(Memory(d), pos, end, budget) ==
      if |es| < budget && 1 <= |n.name| <= DOMAIN_MAX_LEN then Some(n.name) else None
    decreases |es|
  {
    hide ReadU16, HostName, At, NameEntry.Print, Extension.Print;
    if es == [] {
      assert PrintExtensions(es) + n.Print() == n.Print();
      NameEntryRead(d, pos, n);
      HostNameRead(d, pos, n, end);
    } else {
      var e, more := es[0], es[1..];
      assert e in es && forall x :: x in more ==> x in es;
      var tail := PrintExtensions(more) + n.Print();
      assert PrintExtensions(es) + n.Print() == e.Print() + tail;
      AtSplit(d, pos, e.Print(), tail);
      ExtensionRead(d, pos, e);
      if budget > 0 {
        FindNameReads(d, pos + |e.Print()|, more, n, end, budget - 1);
      }
    }
  }

  lemma Vector8At(d: seq<byte>, pos: nat, s: seq<byte>, end: nat)
    requires |s| < 256 && At(d, pos, Vec8(s)) && pos + 1 + |s| <= end
    ensures SkipVector8(Memory(d), pos, end) == Some(pos + 1 + |s|)
  {
    hide ReadU8, At;
    AtSplit(d, pos, [|s|], s);
    AtByte(d, pos, |s|);
  }

  lemma Vector16At(d: seq<byte>, pos: nat, s: seq<byte>, end: nat)
    requires |s| < 0x1_0000 && At(d, pos, Vec16(s)) && pos + 2 + |s| <= end
    ensures Vector16(Memory(d), pos, end) == Some((pos + 2, pos + 2 + |s|)) && At(d, pos + 2, s)
  {
    hide ReadU16, At, Be16;
    AtSplit(d, pos, Be16(|s|), s);
    At16(d, pos, |s|);
  }

  lemma RecordRead(d: seq<byte>, p: nat, version: seq<byte>, n: u16)
    requires |version| == 2 && At(d, p, [0x16] + version + Be16(n))
    ensures ReadU8(Memory(d), p) == Some(0x16) && ReadU16(Memory(d), p + 3) == Some(n)
  {
    hide At, Be16, ReadU8, ReadU16;
    AtSplit(d, p, [0x16] + version, Be16(n));
    AtSplit(d, p, [0x16], version);
    AtByte(d, p, 0x16);
    At16(d, p + 3, n);
  }

  lemma HandshakeRead(d: seq<byte>, p: nat, n: nat)
    requires n < 0x100_0000 && At(d, p, [0x01] + ([n / 0x1_0000] + Be16(n % 0x1_0000)))
    ensures ReadU8(Memory(d), p) == Some(0x01)
    ensures var h2, h1, h0 := ReadU8(Memory(d), p + 1), ReadU8(Memory(d), p + 2), ReadU8(Memory(d), p + 3);
      && h2.Some? && h1.Some? && h0.Some?
      && h2.value as int * 0x1_0000 + h1.value as int * 0x100 + h0.value == n
  {
    hide At;
    AtSplit(d, p, [0x01], [n / 0x1_0000] + Be16(n % 0x1_0000));
    AtSplit(d, p + 1, [n / 0x1_0000], Be16(n % 0x1_0000));
    AtByte(d, p, 0x01);
    AtByte(d, p + 1, n / 0x1_0000);
    At16(d, p + 2, n % 0x1_0000);
  }

  lemma PrintAt(d: seq<byte>, pos: nat, h: Hello)
    requires h.Valid() && At(d, pos, h.Print())
    ensures At(d, pos, [0x16] + h.recordVersion + Be16(h.recordLen))
    ensures At(d, pos + 5, [0x01] + ([h.handshakeLen / 0x1_0000] + Be16(h.handshakeLen % 0x1_0000)))
    ensures At(d, pos + 9, h.Body()) && |h.Print()| == 9 + |h.Body()|
  {
    hide At, Be16, Hello.Body;
    var record := [0x16] + h.recordVersion + Be16(h.recordLen);
    var handshake := [0x01] + ([h.handshakeLen / 0x1_0000] + Be16(h.handshakeLen % 0x1_0000));
    AtSplit(d, pos, record + handshake, h.Body());
    AtSplit(d, pos, record, handshake);
  }

  lemma HelloStartRead(d: seq<byte>, pos: nat, h: Hello, end: nat)
    requires h.Valid() && At(d, pos, h.Print()) && h.Fits(end - pos)
    ensures HelloStart(Memory(d), pos, end) == Some(pos + 43)
  {
    hide ReadU8, ReadU16, At, Be16, Hello.Body, Hello.Print;
    PrintAt(d, pos, h);
    RecordRead(d, pos, h.recordVersion, h.recordLen);
    HandshakeRead(d, pos + 5, h.handshakeLen);
  }

  lemma BodyAt(d: seq<byte>, p: nat, h: Hello)
    requires h.Valid() && At(d, p, h.Body())
    ensures var s, u, z := 1 + |h.session|, 2 + |h.suites|, 1 + |h.compression|;
      && At(d, p + 34, Vec8(h.session)) && At(d, p + 34 + s, Vec16(h.suites))
      && At(d, p + 34 + s + u, Vec8(h.compression)) && At(d, p + 34 + s + u + z, Be16(h.blockLen))
      && At(d, p + 34 + s + u + z + 2, h.Block()) && |h.Body()| == 34 + s + u + z + 2 + |h.Block()|
  {
    hide At, Vec8, Vec16, Hello.Block;
    var v, s, u, z, b := h.versionRandom, Vec8(h.session), Vec16(h.suites), Vec8(h.compression), Be16(h.blockLen);
    AtSplit(d, p, v + s + u + z, b + h.Block());
    AtSplit(d, p + |v + s + u + z|, b, h.Block());
    AtSplit(d, p, v + s + u, z);
    AtSplit(d, p, v + s, u);
    AtSplit(d, p, v, s);
  }

  lemma ExtensionsRead(d: seq<byte>, pos: nat, h: Hello, end: nat)
    requires h.Valid() && At(d, pos, h.Print()) && h.Fits(end - pos)
    ensures var start := pos + |h.Print()| - |h.Block()|;
      start >= 0 && Extensions(Memory(d), pos, end) == Some((start, start + h.blockLen)) && At(d, start, h.Block())
  {
    hide At, HelloStart, SkipVector8, Vector16, Hello.Block, Hello.Body, Hello.Print, Vec8, Vec16;
    HelloStartRead(d, pos, h, end);
    PrintAt(d, pos, h);
    BodyAt(d, pos + 9, h);
    var ciphers := pos + 43 + 1 + |h.session|;
    var compression := ciphers + 2 + |h.suites|;
    Vector8At(d, pos + 43, h.session, end);
    Vector16At(d, ciphers, h.suites, end);
    Vector8At(d, compression, h.compression, end);
    BlockAt(d, compression + 1 + |h.compression|, h.blockLen, end);
  }

  lemma BlockAt(d: seq<byte>, pos: nat, n: u16, end: nat)
    requires At(d, pos, Be16(n)) && pos + 2 + n <= end
    ensures Vector16(Memory(d), pos, end) == Some((pos + 2, pos + 2 + n))
  {
    hide ReadU16, At, Be16;
    At16(d, pos, n);
  }

  /**
   * Round trip: any ClientHello yields exactly its server name when that has 1
   * to 253 bytes and at most 15 extensions precede it, and nothing otherwise.
   * The name is bounded by the extension block, not by its own extension: it is
   * also found when `declared` is smaller than `5 + |name|`.
   */
  lemma SniInvertsPrint(d: seq<byte>, pos: nat, h: Hello, end: nat)
    requires h.Valid() && At(d, pos, h.Print()) && h.Fits(end - pos)
    ensures SniName(Memory(d), pos, end) ==
      if |h.earlier| < MAX_TLS_EXTENSIONS && 1 <= |h.entry.name| <= DOMAIN_MAX_LEN then Some(h.entry.name) else None
  {
    hide At, Extensions, FindName, Hello.Print, Hello.Body, PrintExtensions, NameEntry.Print;
    ExtensionsRead(d, pos, h, end);
    var start := pos + |h.Print()| - |h.Block()|;
    FindNameReads(d, start, h.earlier, h.entry, start + h.blockLen, MAX_TLS_EXTENSIONS);
  }

  // ----------------------------------------------- nothing else is a name

  lemma EntryIsPrinted(d: seq<byte>, pos: nat, declared: u16, end: nat) returns (n: NameEntry)
    requires ReadU16(Memory(d), pos) == Some(0) && ReadU16(Memory(d), pos + 2) == Some(declared)
    requires HostName(Memory(d), pos + 4, declared, end).Some?
    ensures n.Valid() && n.declared == declared && At(d, pos, n.Print()) && pos + |n.Print()| <= end
    ensures HostName(Memory(d), pos + 4, declared, end) == Some(n.name)
  {
    hide Be16, At, ReadU8, ReadU16;
    var c := Memory(d);
    var nameLen := HostNameLen(c, pos + 4, declared).value;
    n := NameEntry(declared, ReadU16(c, pos + 4).value, d[pos + 9..pos + 9 + nameLen]);
    Read16At(d, pos, 0);
    ZeroIs();
    Read16At(d, pos + 2, declared);
    Read16At(d, pos + 4, n.listLen);
    ZeroAt(d, pos + 6);
    Read16At(d, pos + 7, nameLen);
    SliceStands(d, pos + 9, nameLen);
    AtJoin(d, pos, [0, 0], Be16(declared));
    AtJoin(d, pos + 4, Be16(n.listLen), [0]);
    AtJoin(d, pos, [0, 0] + Be16(declared), Be16(n.listLen) + [0]);
    AtJoin(d, pos + 7, Be16(nameLen), n.name);
    AtJoin(d, pos, ([0, 0] + Be16(declared)) + (Be16(n.listLen) + [0]), Vec16(n.name));
  }

  lemma ZeroIs()
    ensures Be16(0) == [0, 0]
  {
    BigEndian(0, 0);
  }

  lemma ZeroAt(d: seq<byte>, pos: nat)
    requires ReadU8(Memory(d), pos) == Some(0)
    ensures At(d, pos, [0])
  {
  }

  /** Extensions, and then a server name, stand at `pos` and end before `end`. */
  ghost predicate NameAt(d: seq<byte>, pos: nat, end: nat, es: seq<Extension>, n: NameEntry) {
    && (forall e :: e in es ==> e.Valid()) && n.Valid()
    && At(d, pos, PrintExtensions(es) + n.Print())
    && pos + |PrintExtensions(es)| + Max(|n.Print()|, 4 + n.declared) <= end
  }

  lemma {:induction false} NameIsPrinted(d: seq<byte>, pos: nat, end: nat, budget: nat)
    ensures FindName(Memory(d), pos, end, budget).Some? ==> exists es, n ::
      NameAt(d, pos, end, es, n) && |es| < budget && FindName(Memory(d), pos, end, budget) == Some(n.name)
    decreases budget
  {
    hide ReadU16, HostName, At, NameEntry.Print, Extension.Print, Be16;
    if FindName(Memory(d), pos, end, budget).None? { return; }
    var kind, len := ReadU16(Memory(d), pos).value, ReadU16(Memory(d), pos + 2).value;
    if kind == 0 {
      var n := EntryIsPrinted(d, pos, len, end);
      assert PrintExtensions([]) + n.Print() == n.Print();
      assert NameAt(d, pos, end, [], n);
    } else {
      NameIsPrinted(d, pos + 4 + len, end, budget - 1);
      var more, n :| NameAt(d, pos + 4 + len, end, more, n) && |more| < budget - 1
        && FindName(Memory(d), pos + 4 + len, end, budget - 1) == Some(n.name);
      NameBehind(d, pos, end, kind, len, more, n);
    }
  }

  lemma NameBehind(d: seq<byte>, pos: nat, end: nat, kind: u16, len: u16, more: seq<Extension>, n: NameEntry)
    requires kind != 0 && NameAt(d, pos + 4 + len, end, more, n)
    requires ReadU16(Memory(d), pos) == Some(kind) && ReadU16(Memory(d), pos + 2) == Some(len)
    ensures exists es :: NameAt(d, pos, end, es, n) && |es| == |more| + 1
  {
    hide ReadU16, At, NameEntry.Print, Extension.Print, Be16;
    InsideCapture(d, pos + 4 + len, PrintExtensions(more) + n.Print());
    var e := Extension(kind, d[pos + 4..pos + 4 + len]);
    var es := [e] + more;
    assert es[1..] == more;
    ExtensionIsPrinted(d, pos, e);
    AtJoin(d, pos, e.Print(), PrintExtensions(more) + n.Print());
    assert PrintExtensions(es) + n.Print() == e.Print() + (PrintExtensions(more) + n.Print());
    assert NameAt(d, pos, end, es, n);
  }

  lemma InsideCapture(d: seq<byte>, pos: nat, s: seq<byte>)
    requires At(d, pos, s)
    ensures pos + |s| <= |d|
  {
  }

  lemma ExtensionIsPrinted(d: seq<byte>, pos: nat, e: Extension)
    requires e.Valid() && ReadU16(Memory(d), pos) == Some(e.kind) && ReadU16(Memory(d), pos + 2) == Some(|e.body|)
    requires pos + 4 + |e.body| <= |d| && e.body == d[pos + 4..pos + 4 + |e.body|]
    ensures At(d, pos, e.Print())
  {
    hide Be16, At, ReadU16;
    Read16At(d, pos, e.kind);
    Read16At(d, pos + 2, |e.body|);
    SliceStands(d, pos + 4, |e.body|);
    AtJoin(d, pos + 2, Be16(|e.body|), e.body);
    AtJoin(d, pos, Be16(e.kind), Vec16(e.body));
  }

  lemma Vector8IsPrinted(d: seq<byte>, pos: nat, end: nat) returns (s: seq<byte>)
    requires SkipVector8(Memory(d), pos, end).Some? && SkipVector8(Memory(d), pos, end).value <= |d|
    ensures |s| < 256 && SkipVector8(Memory(d), pos, end) == Some(pos + 1 + |s|) && At(d, pos, Vec8(s))
  {
    var q := SkipVector8(Memory(d), pos, end).value;
    s := d[pos + 1..q];
    assert d[pos..q] == [d[pos]] + s;
  }

  lemma Vector16IsPrinted(d: seq<byte>, pos: nat, end: nat) returns (s: seq<byte>)
    requires Vector16(Memory(d), pos, end).Some? && Vector16(Memory(d), pos, end).value.1 <= |d|
    ensures |s| < 0x1_0000 && Vector16(Memory(d), pos, end) == Some((pos + 2, pos + 2 + |s|)) && At(d, pos, Vec16(s))
  {
    hide Be16, At, ReadU16;
    var v := Vector16(Memory(d), pos, end).value;
    s := d[v.0..v.1];
    Read16At(d, pos, |s|);
    SliceStands(d, v.0, |s|);
    AtJoin(d, pos, Be16(|s|), s);
  }

  lemma HeadIsPrinted(d: seq<byte>, pos: nat, end: nat)
      returns (version: seq<byte>, recordLen: u16, handshakeLen: nat)
    requires HelloStart(Memory(d), pos, end).Some? && pos + 43 <= |d|
    ensures HelloStart(Memory(d), pos, end).value == pos + 43
    ensures 34 <= handshakeLen < 0x100_0000 && pos + 5 + recordLen <= end && pos + 9 + handshakeLen <= end
    ensures |version| == 2
    ensures At(d, pos, ([0x16] + version + Be16(recordLen))
      + ([0x01] + ([handshakeLen / 0x1_0000] + Be16(handshakeLen % 0x1_0000))))
  {
    hide Be16, At, ReadU16;
    recordLen := ReadU16(Memory(d), pos + 3).value;
    var h2, h1, h0 := d[pos + 6], d[pos + 7], d[pos + 8];
    handshakeLen := h2 as int * 0x1_0000 + h1 as int * 0x100 + h0;
    assert handshakeLen / 0x1_0000 == h2;
    ReadsAreSums(d, pos + 7);
    Read16At(d, pos + 7, handshakeLen % 0x1_0000);
    Read16At(d, pos + 3, recordLen);
    version := d[pos + 1..pos + 3];
    SliceStands(d, pos + 1, 2);
    OneByteStands(d, pos, 0x16);
    OneByteStands(d, pos + 5, 0x01);
    OneByteStands(d, pos + 6, h2);
    AtJoin(d, pos, [0x16], version);
    AtJoin(d, pos, [0x16] + version, Be16(recordLen));
    AtJoin(d, pos + 6, [h2], Be16(handshakeLen % 0x1_0000));
    AtJoin(d, pos + 5, [0x01], [h2] + Be16(handshakeLen % 0x1_0000));
    AtJoin(d, pos, [0x16] + version + Be16(recordLen), [0x01] + ([h2] + Be16(handshakeLen % 0x1_0000)));
  }

  lemma HelloStartIs(d: seq<byte>, pos: nat, end: nat)
    requires HelloStart(Memory(d), pos, end).Some?
    ensures HelloStart(Memory(d), pos, end).value == pos + 43
  {
    hide ReadU8, ReadU16;
  }

  lemma OneByteStands(d: seq<byte>, pos: nat, b: byte)
    requires pos < |d| && d[pos] == b
    ensures At(d, pos, [b])
  {
  }

  /** Where the parts of a ClientHello end: session, cipher suites, compression and extension block. */
  lemma Parts(d: seq<byte>, pos: nat, end: nat) returns (session: nat, suites: nat, compression: nat, block: nat)
    requires Extensions(Memory(d), pos, end).Some?
    ensures var c := Memory(d);
      && HelloStart(c, pos, end) == Some(pos + 43) && SkipVector8(c, pos + 43, end) == Some(session)
      && Vector16(c, session, end) == Some((session + 2, suites)) && SkipVector8(c, suites, end) == Some(compression)
      && Vector16(c, compression, end) == Some((compression + 2, block))
      && Extensions(c, pos, end) == Some((compression + 2, block))
    ensures pos + 44 <= session && session + 2 <= suites && suites < compression && compression + 2 <= block <= end
  {
    hide HelloStart, ReadU8, ReadU16;
    var c := Memory(d);
    HelloStartIs(d, pos, end);
    session := SkipVector8(c, pos + 43, end).value;
    suites := Vector16(c, session, end).value.1;
    compression := SkipVector8(c, suites, end).value;
    block := Vector16(c, compression, end).value.1;
  }

  /** Every name that is reported is that of a ClientHello at the start of the window. */
  lemma ReportedIsPrinted(d: seq<byte>, pos: nat, end: nat) returns (h: Hello)
    requires SniName(Memory(d), pos, end).Some?
    ensures h.Valid() && At(d, pos, h.Print()) && h.Fits(end - pos)
    ensures |h.earlier| < MAX_TLS_EXTENSIONS && SniName(Memory(d), pos, end) == Some(h.entry.name)
  {
    hide Be16, At, HelloStart, SkipVector8, Vector16, Extensions, FindName, PrintExtensions;
    hide NameEntry.Print, Vec8, Vec16, Hello.Body, Hello.Print;
    var session, suites, compression, block := Parts(d, pos, end);
    NameIsPrinted(d, compression + 2, block, MAX_TLS_EXTENSIONS);
    var earlier, entry :| NameAt(d, compression + 2, block, earlier, entry) && |earlier| < MAX_TLS_EXTENSIONS
      && FindName(Memory(d), compression + 2, block, MAX_TLS_EXTENSIONS) == Some(entry.name);
    InsideCapture(d, compression + 2, PrintExtensions(earlier) + entry.Print());
    var version, recordLen, handshakeLen := HeadIsPrinted(d, pos, end);
    SliceStands(d, pos + 9, 34);
    var sessionId := Vector8IsPrinted(d, pos + 43, end);
    var ciphers := Vector16IsPrinted(d, session, end);
    var methods := Vector8IsPrinted(d, suites, end);
    BlockIsPrinted(d, compression, end);
    h := Hello(version, recordLen, handshakeLen, d[pos + 9..pos + 43], sessionId, ciphers, methods,
               block - (compression + 2), earlier, entry);
    assert h.Valid();
    JoinPrint(d, pos, h);
  }

  lemma JoinPrint(d: seq<byte>, pos: nat, h: Hello)
    requires h.Valid()
    requires var n := pos + 43; var s, u, z := n + 1 + |h.session|, n + 3 + |h.session| + |h.suites|,
        n + 4 + |h.session| + |h.suites| + |h.compression|;
      && At(d, pos, ([0x16] + h.recordVersion + Be16(h.recordLen))
        + ([0x01] + ([h.handshakeLen / 0x1_0000] + Be16(h.handshakeLen % 0x1_0000))))
      && At(d, pos + 9, h.versionRandom) && At(d, n, Vec8(h.session)) && At(d, s, Vec16(h.suites))
      && At(d, u, Vec8(h.compression)) && At(d, z, Be16(h.blockLen))
      && At(d, z + 2, PrintExtensions(h.earlier) + h.entry.Print())
    ensures At(d, pos, h.Print())
  {
    hide Be16, At, PrintExtensions, NameEntry.Print, Vec8, Vec16, Hello.Body;
    JoinBody(d, pos + 9, h);
    AtJoin(d, pos, ([0x16] + h.recordVersion + Be16(h.recordLen))
      + ([0x01] + ([h.handshakeLen / 0x1_0000] + Be16(h.handshakeLen % 0x1_0000))), h.Body());
  }

  lemma BlockIsPrinted(d: seq<byte>, pos: nat, end: nat)
    requires Vector16(Memory(d), pos, end).Some?
    ensures var v := Vector16(Memory(d), pos, end).value;
      v.0 == pos + 2 <= v.1 < pos + 0x1_0002 && At(d, pos, Be16(v.1 - v.0))
  {
    hide Be16, At, ReadU16;
    var v := Vector16(Memory(d), pos, end).value;
    Read16At(d, pos, v.1 - v.0);
  }

  lemma JoinBody(d: seq<byte>, p: nat, h: Hello)
    requires h.Valid()
    requires var s, u, z := 1 + |h.session|, 2 + |h.suites|, 1 + |h.compression|;
      && At(d, p, h.versionRandom) && At(d, p + 34, Vec8(h.session)) && At(d, p + 34 + s, Vec16(h.suites))
      && At(d, p + 34 + s + u, Vec8(h.compression)) && At(d, p + 34 + s + u + z, Be16(h.blockLen))
      && At(d, p + 34 + s + u + z + 2, h.Block())
    ensures At(d, p, h.Body())
  {
    hide At, Vec8, Vec16, Hello.Block;
    var v, s, u, z, b := h.versionRandom, Vec8(h.session), Vec16(h.suites), Vec8(h.compression), Be16(h.blockLen);
    AtJoin(d, p, v, s);
    AtJoin(d, p, v + s, u);
    AtJoin(d, p, v + s + u, z);
    AtJoin(d, p + |v + s + u + z|, b, h.Block());
    AtJoin(d, p, v + s + u + z, b + h.Block());
  }

  /**
   * A name is reported exactly when a ClientHello with that name stands at the
   * start of the window, with everything its lengths declare inside the window,
   * fewer than 16 extensions before the name and 1 to 253 bytes in it.
   */
  lemma NameIff(d: seq<byte>, pos: nat, end: nat, name: seq<byte>)
    ensures SniName(Memory(d), pos, end) == Some(name) <==> exists h: Hello ::
      && h.Valid() && At(d, pos, h.Print()) && h.Fits(end - pos)
      && |h.earlier| < 16 && h.entry.name == name && 1 <= |name| <= 253
  {
    hide SniName, At, Hello.Valid, Hello.Print, Hello.Fits;
    if SniName(Memory(d), pos, end) == Some(name) {
      var h := ReportedIsPrinted(d, pos, end);
      SniInvertsPrint(d, pos, h, end);
    }
    forall h: Hello | && h.Valid() && At(d, pos, h.Print()) && h.Fits(end - pos)
                      && |h.earlier| < 16 && h.entry.name == name && 1 <= |name| <= 253
      ensures SniName(Memory(d), pos, end) == Some(name)
    {
      SniInvertsPrint(d, pos, h, end);
    }
  }

  /** A reader that also stops where the extension says it ends. */
  function NameInExtension(c: Cursor, entry: nat, declared: u16): Option<seq<byte>> {
    HostName(c, entry + 4, declared, entry + 4 + declared)
  }

  lemma NameInExtensionIs(d: seq<byte>, p: nat, n: NameEntry)
    requires n.Valid() && At(d, p, n.Print())
    ensures NameInExtension(Memory(d), p, n.declared) ==
      if 1 <= |n.name| <= DOMAIN_MAX_LEN && 5 + |n.name| <= n.declared then Some(n.name) else None
  {
    hide NameEntry.Print, At, Allowed, ReadU8, ReadU16;
    NameEntryRead(d, p, n);
    if 5 + |n.name| <= n.declared {
      AtAllowed(d, p + 9, n.name);
    }
  }

  lemma EntryAt(d: seq<byte>, pos: nat, h: Hello, end: nat)
    requires h.Valid() && At(d, pos, h.Print()) && h.Fits(end - pos)
    ensures var p := pos + |h.Print()| - |h.entry.Print()|;
      p >= pos && At(d, p, h.entry.Print())
  {
    hide At, Extensions, Hello.Print, Hello.Body, PrintExtensions, NameEntry.Print;
    ExtensionsRead(d, pos, h, end);
    var start := pos + |h.Print()| - |h.Block()|;
    AtSplit(d, start, PrintExtensions(h.earlier), h.entry.Print());
    BodyAt(d, pos + 9, h) by { PrintAt(d, pos, h); }
    PrintAt(d, pos, h);
  }

  /**
   * The name found lies in its own extension exactly when that declares at least
   * five bytes more than the name: only then does a reader confined to the
   * extension find it too.
   */
  lemma NameInOwnExtensionIff(d: seq<byte>, pos: nat, h: Hello, end: nat)
    requires h.Valid() && At(d, pos, h.Print()) && h.Fits(end - pos)
    requires SniName(Memory(d), pos, end).Some?
    ensures var p := pos + |h.Print()| - |h.entry.Print()|;
      p >= 0 && (NameInExtension(Memory(d), p, h.entry.declared) == SniName(Memory(d), pos, end)
        <==> 5 + |h.entry.name| <= h.entry.declared)
  {
    hide At, SniName, NameInExtension, Hello.Print, NameEntry.Print;
    SniInvertsPrint(d, pos, h, end);
    EntryAt(d, pos, h, end);
    NameInExtensionIs(d, pos + |h.Print()| - |h.entry.Print()|, h.entry);
  }

  /** An extension that declares five bytes, with a name of one byte behind them. */
  ghost function ShortExtension(): Hello {
    Hello([3, 1], 54, 50, seq(34, i => 0), [], [], [], 10, [], NameEntry(5, 3, [0x61]))
  }

  /** The name behind its extension is found. */
  lemma NameBehindItsExtension()
    ensures var h := ShortExtension();
      h.Valid() && |h.Print()| == 59 && SniName(Memory(h.Print()), 0, 59) == Some([0x61])
  {
    hide SniName, NameEntry.Print;
    var h := ShortExtension();
    assert h.Valid() && |h.Block()| == 10 && |h.Body()| == 50;
    var d := h.Print();
    WholeAt(d);
    SniInvertsPrint(d, 0, h, 59);
  }
}
