/** The `Host` header of a plaintext HTTP request. */
module HttpHost {
  import opened Common
  import opened Cursors

  const MAX_HTTP_SCAN := 512
  const MAX_HTTP_HEADERS := 16
  const MAX_HTTP_HOST_LEN := 253

  const CR: byte := 0x0d
  const LF: byte := 0x0a

  predicate Blank(b: byte) {
    b == 0x20 || b == 0x09
  }

  /** Bytes that end a header value; a colon starts the port. */
  predicate EndsValue(b: byte) {
    b == CR || b == LF || b == 0x3a
  }

  /** First four bytes of the recognised methods. */
  predicate MethodStart(b0: byte, b1: byte, b2: byte, b3: byte) {
    || (b0 == 0x47 && b1 == 0x45 && b2 == 0x54 && b3 == 0x20) // "GET "
    || (b0 == 0x50 && b1 == 0x4f && b2 == 0x53 && b3 == 0x54) // "POST"
    || (b0 == 0x48 && b1 == 0x45 && b2 == 0x41 && b3 == 0x44) // "HEAD"
    || (b0 == 0x50 && b1 == 0x55 && b2 == 0x54 && b3 == 0x20) // "PUT "
    || (b0 == 0x44 && b1 == 0x45 && b2 == 0x4c && b3 == 0x45) // "DELE"
    || (b0 == 0x4f && b1 == 0x50 && b2 == 0x54 && b3 == 0x49) // "OPTI"
    || (b0 == 0x50 && b1 == 0x41 && b2 == 0x54 && b3 == 0x43) // "PATC"
    || (b0 == 0x43 && b1 == 0x4f && b2 == 0x4e && b3 == 0x4e) // "CONN"
  }

  /** `host:` in any letter case. */
  predicate HostField(b0: byte, b1: byte, b2: byte, b3: byte, b4: byte) {
    && (b0 == 0x48 || b0 == 0x68) && (b1 == 0x4f || b1 == 0x6f) && (b2 == 0x53 || b2 == 0x73)
    && (b3 == 0x54 || b3 == 0x74) && b4 == 0x3a
  }

  // ---------------------------------------------------------- specification

  predicate IsHttpRequest(c: Cursor, offset: nat, end: nat) {
    offset + 4 <= end &&
    match (ReadU8(c, offset), ReadU8(c, offset + 1), ReadU8(c, offset + 2), ReadU8(c, offset + 3))
    case (Some(b0), Some(b1), Some(b2), Some(b3)) => MethodStart(b0, b1, b2, b3)
    case _ => false
  }

  predicate HeaderIsHost(c: Cursor, position: nat, end: nat) {
    position + 5 <= end &&
    match (ReadU8(c, position), ReadU8(c, position + 1), ReadU8(c, position + 2),
           ReadU8(c, position + 3), ReadU8(c, position + 4))
    case (Some(b0), Some(b1), Some(b2), Some(b3), Some(b4)) => HostField(b0, b1, b2, b3, b4)
    case _ => false
  }

  /** Position of the first line end of `[pos, end)`, if every byte before it is captured. */
  function FirstCrlf(c: Cursor, pos: nat, end: nat): Option<nat>
    decreases end - pos
  {
    if pos + 2 > end then None
    else
      match ReadU8(c, pos)
      case None => None
      case Some(b) =>
        if b != CR then FirstCrlf(c, pos + 1, end)
        else if ReadU8(c, pos + 1).None? then None
        else if ReadU8(c, pos + 1) == Some(LF) then Some(pos)
        else FirstCrlf(c, pos + 1, end)
  }

  function SkipBlanks(c: Cursor, pos: nat, end: nat): (p: nat)
    ensures pos <= p <= Max(pos, end)
    decreases end - pos
  {
    match ReadU8(c, pos)
    case Some(b) => if pos < end && Blank(b) then SkipBlanks(c, pos + 1, end) else pos
    case None => pos
  }

  function ValueEnd(c: Cursor, pos: nat, end: nat): (p: nat)
    ensures pos <= p <= Max(pos, end)
    ensures p > pos ==> Allowed(c, pos, p - pos)
    decreases end - pos
  {
    match ReadU8(c, pos)
    case Some(b) => if pos < end && !EndsValue(b) then ValueEnd(c, pos + 1, end) else pos
    case None => pos
  }

  function TrimEnd(s: seq<byte>): (t: seq<byte>)
    ensures t <= s
  {
    if s != [] && Blank(s[|s| - 1]) then TrimEnd(s[..|s| - 1]) else s
  }

  function NonEmpty(s: seq<byte>): Option<seq<byte>> {
    if s == [] then None else Some(s)
  }

  function Kept(s: seq<byte>): seq<byte> {
    TrimEnd(s[..Min(|s|, MAX_HTTP_HOST_LEN)])
  }

  /** The bytes of the value that starts at `start`. */
  function ValueBytes(c: Cursor, start: nat, end: nat): seq<byte> {
    var stop := ValueEnd(c, start, end);
    if stop == start then [] else c.data[start..stop]
  }

  function HostValue(c: Cursor, pos: nat, end: nat): Option<seq<byte>> {
    NonEmpty(Kept(ValueBytes(c, SkipBlanks(c, pos, end), end)))
  }

  function FindHost(c: Cursor, pos: nat, end: nat, budget: nat): Option<seq<byte>>
    decreases budget
  {
    if budget == 0 || pos + 2 > end || ReadU8(c, pos).None? then None
    else if ReadU8(c, pos) == Some(CR) && (ReadU8(c, pos + 1).None? || ReadU8(c, pos + 1) == Some(LF)) then None
    else if HeaderIsHost(c, pos, end) then HostValue(c, pos + 5, end)
    else
      match FirstCrlf(c, pos, end)
      case None => None
      case Some(q) => FindHost(c, q + 2, end, budget - 1)
  }

  function HttpHostName(c: Cursor, offset: nat, end: nat): Option<seq<byte>> {
    var scanEnd := Min(end, offset + MAX_HTTP_SCAN);
    if !IsHttpRequest(c, offset, scanEnd) then None
    else
      match FirstCrlf(c, offset, scanEnd)
      case None => None
      case Some(q) => FindHost(c, q + 2, scanEnd, MAX_HTTP_HEADERS)
  }

  lemma {:induction false} FirstCrlfInside(c: Cursor, pos: nat, end: nat)
    ensures FirstCrlf(c, pos, end).Some? ==> pos <= FirstCrlf(c, pos, end).value <= end - 2
    decreases end - pos
  {
    if pos + 2 <= end {
      FirstCrlfInside(c, pos + 1, end);
    }
  }

  // ----------------------------------------------------------------- parser

  /** At most `MAX_HTTP_SCAN` positions are tried. */
  method FindCrlf(c: Cursor, start: nat, end: nat) returns (r: Option<nat>)
    ensures r == FirstCrlf(c, start, Min(end, start + MAX_HTTP_SCAN + 1))
  {
    hide ReadU8;
    var position := start;
    ghost var last: nat := Min(end, start + MAX_HTTP_SCAN + 1);
    for i := 0 to MAX_HTTP_SCAN
      invariant position == start + i
      invariant FirstCrlf(c, start, last) == FirstCrlf(c, position, last)
    {
      if position + 2 > end {
        return None;
      }
      var b := ReadU8(c, position);
      if b.None? {
        return None;
      }
      if b.value == CR {
        var next := ReadU8(c, position + 1);
        if next.None? {
          return None;
        }
        if next.value == LF {
          return Some(position);
        }
      }
      position := position + 1;
    }
    r := None;
  }

  method SkipBlankBytes(c: Cursor, start: nat, end: nat) returns (position: nat)
    requires end <= start + MAX_HTTP_SCAN
    ensures position == SkipBlanks(c, start, end)
  {
    hide ReadU8;
    position := start;
    for i := 0 to MAX_HTTP_SCAN
      invariant position == start + i
      invariant SkipBlanks(c, start, end) == SkipBlanks(c, position, end)
    {
      if position >= end {
        break;
      }
      var b := ReadU8(c, position);
      if b.None? || !Blank(b.value) {
        break;
      }
      position := position + 1;
    }
  }

  lemma ReadsAreBytes(c: Cursor, start: nat, s: seq<byte>)
    requires s != [] && forall k :: 0 <= k < |s| ==> ReadU8(c, start + k) == Some(s[k])
    ensures Allowed(c, start, |s|) && s == c.data[start..start + |s|]
  {
    assert ReadU8(c, start + (|s| - 1)) == Some(s[|s| - 1]);
  }

  /** Copies the value at `start`, keeping its first `MAX_HTTP_HOST_LEN` bytes. */
  method CopyValue(c: Cursor, start: nat, end: nat, buffer: array<byte>) returns (position: nat, length: nat)
    requires buffer.Length == MAX_HTTP_HOST_LEN && end <= start + MAX_HTTP_SCAN
    modifies buffer
    ensures position == ValueEnd(c, start, end)
    ensures length == Min(position - start, MAX_HTTP_HOST_LEN)
    ensures length > 0 ==> Allowed(c, start, length) && buffer[..length] == c.data[start..start + length]
  {
    hide ReadU8, Allowed, EndsValue;
    position := start;
    length := 0;
    for i := 0 to MAX_HTTP_SCAN
      invariant position == start + i
      invariant length == Min(i, MAX_HTTP_HOST_LEN)
      invariant ValueEnd(c, start, end) == ValueEnd(c, position, end)
      invariant forall k :: 0 <= k < length ==> ReadU8(c, start + k) == Some(buffer[k])
    {
      if position >= end {
        break;
      }
      var b := ReadU8(c, position);
      if b.None? || EndsValue(b.value) {
        break;
      }
      if length < MAX_HTTP_HOST_LEN {
        buffer[length] := b.value;
        length := length + 1;
      }
      position := position + 1;
    }
    if length > 0 {
      ReadsAreBytes(c, start, buffer[..length]);
    }
  }

  method TrimBlanks(buffer: array<byte>, n: nat) returns (length: nat)
    requires n <= buffer.Length
    ensures length <= n && buffer[..length] == TrimEnd(buffer[..n])
  {
    length := n;
    while length > 0 && Blank(buffer[length - 1])
      invariant length <= n
      invariant TrimEnd(buffer[..n]) == TrimEnd(buffer[..length])
    {
      assert buffer[..length][..length - 1] == buffer[..length - 1];
      length := length - 1;
    }
  }

  lemma SlicePrefix(d: seq<byte>, i: nat, j: nat, n: nat)
    requires i + n <= j <= |d|
    ensures d[i..j][..n] == d[i..i + n]
  {
  }

  method ReadValue(c: Cursor, start: nat, end: nat, buffer: array<byte>) returns (r: Option<nat>)
    requires buffer.Length == MAX_HTTP_HOST_LEN && end <= start + MAX_HTTP_SCAN
    modifies buffer
    ensures Found(r, buffer[..], HostValue(c, start, end))
  {
    hide SkipBlanks, ValueEnd, TrimEnd;
    var valueStart := SkipBlankBytes(c, start, end);
    var position, length := CopyValue(c, valueStart, end, buffer);
    ghost var bytes := ValueBytes(c, valueStart, end);
    if length > 0 {
      SlicePrefix(c.data, valueStart, position, length);
    }
    assert bytes[..Min(|bytes|, MAX_HTTP_HOST_LEN)] == buffer[..length];
    length := TrimBlanks(buffer, length);
    if position == valueStart || length == 0 {
      return None;
    }
    r := Some(length);
  }

  /** A parser result and the buffer it wrote stand for the name `name`. */
  ghost predicate Found(r: Option<nat>, buffer: seq<byte>, name: Option<seq<byte>>) {
    && (r.Some? <==> name.Some?)
    && (r.Some? ==> r.value <= |buffer| && buffer[..r.value] == name.value)
  }

  method ExtractHttpHost(c: Cursor, offset: nat, end: nat, buffer: array<byte>) returns (r: Option<nat>)
    requires buffer.Length == MAX_HTTP_HOST_LEN
    modifies buffer
    ensures Found(r, buffer[..], HttpHostName(c, offset, end))
  {
    hide ReadU8, FirstCrlf, HeaderIsHost, IsHttpRequest, HostValue;
    var scanEnd: nat := Min(end, offset + MAX_HTTP_SCAN);
    if !IsHttpRequest(c, offset, scanEnd) {
      return None;
    }
    var lineEnd := FindCrlf(c, offset, scanEnd);
    if lineEnd.None? {
      return None;
    }
    FirstCrlfInside(c, offset, scanEnd);
    var position := lineEnd.value + 2;
    ghost var budget: nat := MAX_HTTP_HEADERS;
    for i := 0 to MAX_HTTP_HEADERS
      invariant offset <= position && budget == MAX_HTTP_HEADERS - i
      invariant HttpHostName(c, offset, end) == FindHost(c, position, scanEnd, budget)
    {
      if position + 2 > scanEnd {
        return None;
      }
      var b := ReadU8(c, position);
      if b.None? {
        return None;
      }
      if b.value == CR {
        var next := ReadU8(c, position + 1);
        if next.None? || next.value == LF {
          return None;
        }
      }
      if HeaderIsHost(c, position, scanEnd) {
        r := ReadValue(c, position + 5, scanEnd, buffer);
        return;
      }
      lineEnd := FindCrlf(c, position, scanEnd);
      if lineEnd.None? {
        return None;
      }
      FirstCrlfInside(c, position, scanEnd);
      position := lineEnd.value + 2;
      budget := budget - 1;
    }
    r := None;
  }

  // ------------------------------------------------------------ independence

  lemma {:induction false} FirstCrlfInWindow(c: Cursor, d: Cursor, offset: nat, pos: nat, end: nat)
    requires Agree(c, d, offset, end) && offset <= pos
    ensures FirstCrlf(c, pos, end) == FirstCrlf(d, pos, end)
    decreases end - pos
  {
    hide ReadU8, Agree;
    if pos + 2 <= end {
      AgreeReads(c, d, offset, end, pos);
      AgreeReads(c, d, offset, end, pos + 1);
      FirstCrlfInWindow(c, d, offset, pos + 1, end);
    }
  }

  lemma {:induction false} SkipBlanksInWindow(c: Cursor, d: Cursor, offset: nat, pos: nat, end: nat)
    requires Agree(c, d, offset, end) && offset <= pos
    ensures SkipBlanks(c, pos, end) == SkipBlanks(d, pos, end)
    decreases end - pos
  {
    hide ReadU8, Agree;
    if pos < end {
      AgreeReads(c, d, offset, end, pos);
      SkipBlanksInWindow(c, d, offset, pos + 1, end);
    }
  }

  lemma {:induction false} ValueEndInWindow(c: Cursor, d: Cursor, offset: nat, pos: nat, end: nat)
    requires Agree(c, d, offset, end) && offset <= pos
    ensures ValueEnd(c, pos, end) == ValueEnd(d, pos, end)
    decreases end - pos
  {
    hide ReadU8, Agree;
    if pos < end {
      AgreeReads(c, d, offset, end, pos);
      ValueEndInWindow(c, d, offset, pos + 1, end);
    }
  }

  lemma HostValueInWindow(c: Cursor, d: Cursor, offset: nat, pos: nat, end: nat)
    requires Agree(c, d, offset, end) && offset <= pos
    ensures HostValue(c, pos, end) == HostValue(d, pos, end)
  {
    hide SkipBlanks, ValueEnd, Agree, Kept;
    SkipBlanksInWindow(c, d, offset, pos, end);
    var start := SkipBlanks(c, pos, end);
    ValueEndInWindow(c, d, offset, start, end);
    var stop := ValueEnd(c, start, end);
    if stop > start {
      AgreeBytes(c, d, offset, end, start, stop - start);
    }
  }

  lemma FieldsInWindow(c: Cursor, d: Cursor, offset: nat, pos: nat, end: nat)
    requires Agree(c, d, offset, end) && offset <= pos
    ensures HeaderIsHost(c, pos, end) == HeaderIsHost(d, pos, end)
    ensures IsHttpRequest(c, pos, end) == IsHttpRequest(d, pos, end)
  {
    hide ReadU8, Agree, HostField, MethodStart;
    AgreeReads(c, d, offset, end, pos);
    AgreeReads(c, d, offset, end, pos + 1);
    AgreeReads(c, d, offset, end, pos + 2);
    AgreeReads(c, d, offset, end, pos + 3);
    AgreeReads(c, d, offset, end, pos + 4);
  }

  lemma {:induction false} FindHostInWindow(c: Cursor, d: Cursor, offset: nat, pos: nat, end: nat, budget: nat)
    requires Agree(c, d, offset, end) && offset <= pos
    ensures FindHost(c, pos, end, budget) == FindHost(d, pos, end, budget)
    decreases budget
  {
    hide ReadU8, Agree, FirstCrlf, HeaderIsHost, IsHttpRequest, HostValue;
    if budget > 0 && pos + 2 <= end {
      AgreeReads(c, d, offset, end, pos);
      AgreeReads(c, d, offset, end, pos + 1);
      FieldsInWindow(c, d, offset, pos, end);
      HostValueInWindow(c, d, offset, pos + 5, end);
      FirstCrlfInWindow(c, d, offset, pos, end);
      var q := FirstCrlf(c, pos, end);
      if q.Some? {
        FirstCrlfInside(c, pos, end);
        FindHostInWindow(c, d, offset, q.value + 2, end, budget - 1);
      }
    }
  }

  /** The host depends on the bytes of `[offset, end)`, and on the first 512 of them, alone. */
  lemma HttpHostInWindow(c: Cursor, d: Cursor, offset: nat, end: nat)
    requires Agree(c, d, offset, Min(end, offset + MAX_HTTP_SCAN))
    ensures HttpHostName(c, offset, end) == HttpHostName(d, offset, end)
  {
    hide Agree, FirstCrlf, IsHttpRequest, FindHost;
    var scanEnd: nat := Min(end, offset + MAX_HTTP_SCAN);
    FieldsInWindow(c, d, offset, offset, scanEnd);
    FirstCrlfInWindow(c, d, offset, offset, scanEnd);
    var q := FirstCrlf(c, offset, scanEnd);
    if q.Some? {
      FirstCrlfInside(c, offset, scanEnd);
      FindHostInWindow(c, d, offset, q.value + 2, scanEnd, MAX_HTTP_HEADERS);
    }
  }

  // -------------------------------------------------------- print and parse

  /** No line end inside `s`. */
  ghost predicate OneLine(s: seq<byte>) {
    forall i {:trigger s[i]} :: 0 <= i < |s| - 1 ==> !(s[i] == CR && s[i + 1] == LF)
  }

  ghost predicate HostLine(s: seq<byte>) {
    |s| >= 5 && HostField(s[0], s[1], s[2], s[3], s[4])
  }

  /** A header line that is neither empty nor a `Host` header. */
  ghost predicate OtherHeader(s: seq<byte>) {
    s != [] && OneLine(s) && !HostLine(s)
  }

  function Line(s: seq<byte>): (l: seq<byte>)
    ensures |l| == |s| + 2
  {
    s + [CR, LF]
  }

  function Lines(ls: seq<seq<byte>>): seq<byte> {
    if ls == [] then [] else Line(ls[0]) + Lines(ls[1..])
  }

  /** A request up to the end of its host value: the request line, earlier headers, `Host:`, blanks and the value. */
  datatype Request = Request(
      requestLine: seq<byte>, earlier: seq<seq<byte>>, field: seq<byte>, blanks: seq<byte>, value: seq<byte>) {
    ghost predicate Valid() {
      && |requestLine| >= 4 && MethodStart(requestLine[0], requestLine[1], requestLine[2], requestLine[3])
        && OneLine(requestLine)
      && (forall l :: l in earlier ==> OtherHeader(l))
      && |field| == 5 && HostLine(field)
      && (forall b :: b in blanks ==> Blank(b))
      && (forall b :: b in value ==> !EndsValue(b)) && (value != [] ==> !Blank(value[0]))
    }

    function Print(): seq<byte> {
      Line(requestLine) + (Lines(earlier) + (field + (blanks + value)))
    }
  }

  lemma {:induction false} FirstCrlfAt(d: seq<byte>, pos: nat, s: seq<byte>, k: nat, end: nat)
    requires OneLine(s) && At(d, pos, Line(s)) && k <= |s| && pos + |s| + 2 <= end
    ensures FirstCrlf(Memory(d), pos + k, end) == Some(pos + |s|)
    decreases |s| - k
  {
    var l := d[pos..pos + |s| + 2];
    assert l[k] == d[pos + k] && l[k + 1] == d[pos + k + 1];
    if k < |s| {
      assert s[k] == d[pos + k];
      FirstCrlfAt(d, pos, s, k + 1, end);
    }
  }

  lemma ByteRead(d: seq<byte>, pos: nat)
    ensures ReadU8(Memory(d), pos) == if pos < |d| then Some(d[pos]) else None
  {
  }

  lemma {:induction false} SkipBlanksAt(d: seq<byte>, pos: nat, s: seq<byte>, end: nat)
    requires At(d, pos, s) && pos + |s| <= end && forall b :: b in s ==> Blank(b)
    requires pos + |s| < end && pos + |s| < |d| ==> !Blank(d[pos + |s|])
    ensures SkipBlanks(Memory(d), pos, end) == pos + |s|
    decreases |s|
  {
    hide At, ReadU8;
    ByteRead(d, pos);
    if s != [] {
      assert s == [s[0]] + s[1..] && s[0] in s;
      AtSplit(d, pos, [s[0]], s[1..]);
      AtByte(d, pos, s[0]);
      SkipBlanksAt(d, pos + 1, s[1..], end);
    }
  }

  lemma {:induction false} ValueEndAt(d: seq<byte>, pos: nat, s: seq<byte>, end: nat)
    requires At(d, pos, s) && pos + |s| <= end && forall b :: b in s ==> !EndsValue(b)
    requires pos + |s| < end && pos + |s| < |d| ==> EndsValue(d[pos + |s|])
    ensures ValueEnd(Memory(d), pos, end) == pos + |s|
    decreases |s|
  {
    hide At, ReadU8;
    ByteRead(d, pos);
    if s != [] {
      assert s == [s[0]] + s[1..] && s[0] in s;
      AtSplit(d, pos, [s[0]], s[1..]);
      AtByte(d, pos, s[0]);
      ValueEndAt(d, pos + 1, s[1..], end);
    }
  }

  lemma HostValueAt(d: seq<byte>, pos: nat, blanks: seq<byte>, value: seq<byte>, end: nat)
    requires At(d, pos, blanks + value) && pos + |blanks + value| <= end
    requires forall b :: b in blanks ==> Blank(b)
    requires forall b :: b in value ==> !EndsValue(b)
    requires value != [] ==> !Blank(value[0])
    requires var stop := pos + |blanks + value|; stop < end && stop < |d| ==> EndsValue(d[stop])
    ensures HostValue(Memory(d), pos, end) == NonEmpty(Kept(value))
  {
    hide SkipBlanks, ValueEnd, Kept;
    AtSplit(d, pos, blanks, value);
    var start := pos + |blanks|;
    if value != [] {
      assert value[0] == d[start];
    }
    SkipBlanksAt(d, pos, blanks, end);
    ValueEndAt(d, start, value, end);
  }

  lemma FieldAt(d: seq<byte>, pos: nat, s: seq<byte>, end: nat)
    requires At(d, pos, s) && pos + |s| <= end
    ensures |s| >= 5 ==> HeaderIsHost(Memory(d), pos, end) == HostLine(s)
    ensures |s| >= 4 ==> IsHttpRequest(Memory(d), pos, end) == MethodStart(s[0], s[1], s[2], s[3])
  {
    hide HostField, MethodStart;
    if |s| >= 4 {
      assert s[0] == d[pos] && s[1] == d[pos + 1] && s[2] == d[pos + 2] && s[3] == d[pos + 3];
    }
    if |s| >= 5 {
      assert s[4] == d[pos + 4];
    }
  }

  /** A line followed by at least three more bytes is long enough to be compared with `host:`. */
  lemma OtherHeaderAt(d: seq<byte>, pos: nat, s: seq<byte>, end: nat)
    requires OtherHeader(s) && At(d, pos, Line(s)) && pos + |s| + 2 <= end
    ensures !HeaderIsHost(Memory(d), pos, end)
    ensures ReadU8(Memory(d), pos).Some?
    ensures ReadU8(Memory(d), pos) == Some(CR) ==>
      ReadU8(Memory(d), pos + 1).Some? && ReadU8(Memory(d), pos + 1) != Some(LF)
  {
    var l := Line(s);
    assert d[pos..pos + |l|] == l;
    assert l[0] == d[pos] && l[1] == d[pos + 1] && l[2] == d[pos + 2];
    if |l| >= 4 { assert l[3] == d[pos + 3]; }
    if |l| >= 5 { assert l[4] == d[pos + 4]; }
    if |s| >= 2 { assert s[0] == l[0] && s[1] == l[1]; }
    assert l[|s|] == CR;
  }

  lemma {:induction false} FindHostAt(d: seq<byte>, pos: nat, r: Request, n: nat, end: nat, budget: nat)
    requires r.Valid() && n <= |r.earlier|
    requires At(d, pos, Lines(r.earlier[n..]) + (r.field + (r.blanks + r.value)))
    requires var stop := pos + |Lines(r.earlier[n..]) + (r.field + (r.blanks + r.value))|;
      stop <= end && (stop < end && stop < |d| ==> EndsValue(d[stop]))
    ensures FindHost(Memory(d), pos, end, budget) ==
      if |r.earlier| - n < budget then NonEmpty(Kept(r.value)) else None
    decreases |r.earlier| - n
  {
    hide FirstCrlf, HeaderIsHost, HostValue, Kept, EndsValue, HostField, MethodStart, At, ReadU8;
    var host := r.field + (r.blanks + r.value);
    if n == |r.earlier| {
      assert Lines(r.earlier[n..]) + host == host;
      HostFieldAt(d, pos, r, end);
    } else {
      var l, more := r.earlier[n], r.earlier[n + 1..];
      assert l in r.earlier && r.earlier[n..][0] == l && r.earlier[n..][1..] == more;
      assert Lines(r.earlier[n..]) + host == Line(l) + (Lines(more) + host);
      AtSplit(d, pos, Line(l), Lines(more) + host);
      OtherHeaderAt(d, pos, l, end);
      FirstCrlfAt(d, pos, l, 0, end);
      if budget > 0 {
        FindHostAt(d, pos + |l| + 2, r, n + 1, end, budget - 1);
      }
    }
  }

  lemma HostFieldAt(d: seq<byte>, pos: nat, r: Request, end: nat)
    requires r.Valid() && At(d, pos, r.field + (r.blanks + r.value))
    requires var stop := pos + |r.field + (r.blanks + r.value)|;
      stop <= end && (stop < end && stop < |d| ==> EndsValue(d[stop]))
    ensures HeaderIsHost(Memory(d), pos, end) && ReadU8(Memory(d), pos).Some? && ReadU8(Memory(d), pos) != Some(CR)
    ensures HostValue(Memory(d), pos + 5, end) == NonEmpty(Kept(r.value))
  {
    hide HeaderIsHost, HostValue, Kept, EndsValue;
    AtSplit(d, pos, r.field, r.blanks + r.value);
    FieldAt(d, pos, r.field, end);
    HostValueAt(d, pos + 5, r.blanks, r.value, end);
    assert d[pos] == r.field[0];
  }

  /**
   * A request whose host value ends inside the first 512 bytes (at a line end,
   * a colon, the end of the scan or the end of the capture) yields the first
   * 253 bytes of that value without trailing blanks, and nothing when 16 headers
   * come first.
   */
  lemma HttpHostInvertsPrint(d: seq<byte>, pos: nat, r: Request, end: nat)
    requires r.Valid() && At(d, pos, r.Print())
    requires var scanEnd, stop := Min(end, pos + MAX_HTTP_SCAN), pos + |r.Print()|;
      stop <= scanEnd && (stop < scanEnd && stop < |d| ==> EndsValue(d[stop]))
    ensures HttpHostName(Memory(d), pos, end) ==
      if |r.earlier| < MAX_HTTP_HEADERS then NonEmpty(Kept(r.value)) else None
  {
    hide FirstCrlf, FindHost, At, EndsValue, IsHttpRequest, Kept, HostField, MethodStart, Lines;
    var scanEnd: nat := Min(end, pos + MAX_HTTP_SCAN);
    var rest := Lines(r.earlier) + (r.field + (r.blanks + r.value));
    AtSplit(d, pos, Line(r.requestLine), rest);
    AtSplit(d, pos, r.requestLine, [CR, LF]);
    FieldAt(d, pos, r.requestLine, scanEnd);
    FirstCrlfAt(d, pos, r.requestLine, 0, scanEnd);
    assert r.earlier[0..] == r.earlier;
    FindHostAt(d, pos + |r.requestLine| + 2, r, 0, scanEnd, MAX_HTTP_HEADERS);
  }

  lemma TrimEndShortens(s: seq<byte>)
    ensures |TrimEnd(s)| <= |s|
    ensures s != [] ==> (TrimEnd(s) == s <==> !Blank(s[|s| - 1]))
  {
    if s != [] && Blank(s[|s| - 1]) {
      TrimEndShortens(s[..|s| - 1]);
    }
  }

  lemma KeptWholeIff(s: seq<byte>)
    ensures NonEmpty(Kept(s)) == Some(s) <==> 1 <= |s| <= MAX_HTTP_HOST_LEN && !Blank(s[|s| - 1])
  {
    hide TrimEnd;
    TrimEndShortens(s[..Min(|s|, MAX_HTTP_HOST_LEN)]);
    if |s| <= MAX_HTTP_HOST_LEN {
      assert s[..|s|] == s;
    }
  }

  /**
   * The host value comes back whole exactly when it has 1 to 253 bytes of which
   * the last is no blank, and fewer than 16 headers come first.
   */
  lemma HostRoundTripsIff(d: seq<byte>, pos: nat, r: Request, end: nat)
    requires r.Valid() && At(d, pos, r.Print())
    requires var scanEnd, stop := Min(end, pos + MAX_HTTP_SCAN), pos + |r.Print()|;
      stop <= scanEnd && (stop < scanEnd && stop < |d| ==> EndsValue(d[stop]))
    ensures HttpHostName(Memory(d), pos, end) == Some(r.value) <==>
      |r.earlier| < MAX_HTTP_HEADERS && 1 <= |r.value| <= MAX_HTTP_HOST_LEN && !Blank(r.value[|r.value| - 1])
  {
    hide HttpHostName, Kept, At, EndsValue, NonEmpty;
    HttpHostInvertsPrint(d, pos, r, end);
    KeptWholeIff(r.value);
  }

  // ----------------------------------------------- nothing else is a host

  lemma {:induction false} LineIsPrinted(d: seq<byte>, pos: nat, end: nat)
    requires FirstCrlf(Memory(d), pos, end).Some?
    ensures var q := FirstCrlf(Memory(d), pos, end).value;
      pos <= q && q + 2 <= end && q + 2 <= |d| && d[q] == CR && d[q + 1] == LF
      && OneLine(d[pos..q]) && At(d, pos, Line(d[pos..q]))
    decreases end - pos
  {
    FirstCrlfInside(Memory(d), pos + 1, end);
    var q := FirstCrlf(Memory(d), pos, end).value;
    if pos < q {
      LineIsPrinted(d, pos + 1, end);
      var s, t := d[pos..q], d[pos + 1..q];
      forall i {:trigger s[i]} | 0 <= i < |s| - 1
        ensures !(s[i] == CR && s[i + 1] == LF)
      {
        assert s[i] == d[pos + i] && s[i + 1] == d[pos + i + 1] && s[i + 1] == t[i];
        if i > 0 { assert s[i] == t[i - 1]; }
      }
    }
    var line := Line(d[pos..q]);
    assert line[q - pos] == d[q] && line[q + 1 - pos] == d[q + 1];
    assert d[pos..q + 2] == line;
  }

  lemma {:induction false} BlanksArePrinted(d: seq<byte>, pos: nat, end: nat)
    requires pos <= |d|
    ensures var q := SkipBlanks(Memory(d), pos, end);
      q <= |d| && (forall b :: b in d[pos..q] ==> Blank(b)) && (q < end && q < |d| ==> !Blank(d[q]))
    decreases end - pos
  {
    var q := SkipBlanks(Memory(d), pos, end);
    if q > pos {
      BlanksArePrinted(d, pos + 1, end);
      assert d[pos..q] == [d[pos]] + d[pos + 1..q];
    }
  }

  lemma {:induction false} ValueIsPrinted(d: seq<byte>, pos: nat, end: nat)
    requires pos <= |d|
    ensures var q := ValueEnd(Memory(d), pos, end);
      q <= |d| && (forall b :: b in d[pos..q] ==> !EndsValue(b)) && (q < end && q < |d| ==> EndsValue(d[q]))
    decreases end - pos
  {
    var q := ValueEnd(Memory(d), pos, end);
    if q > pos {
      ValueIsPrinted(d, pos + 1, end);
      assert d[pos..q] == [d[pos]] + d[pos + 1..q];
    }
  }

  /** A host field with its value stands at `pos`, and ends where a value ends. */
  ghost predicate HostAt(d: seq<byte>, pos: nat, field: seq<byte>, blanks: seq<byte>, value: seq<byte>, end: nat) {
    && |field| == 5 && HostLine(field)
    && (forall b :: b in blanks ==> Blank(b))
    && (forall b :: b in value ==> !EndsValue(b)) && (value != [] ==> !Blank(value[0]))
    && At(d, pos, field + (blanks + value))
    && var stop := pos + |field + (blanks + value)|;
       stop <= end && (stop < end && stop < |d| ==> EndsValue(d[stop]))
  }

  lemma HostIsPrinted(d: seq<byte>, pos: nat, end: nat)
      returns (field: seq<byte>, blanks: seq<byte>, value: seq<byte>)
    requires HeaderIsHost(Memory(d), pos, end) && HostValue(Memory(d), pos + 5, end).Some?
    ensures HostAt(d, pos, field, blanks, value, end)
    ensures HostValue(Memory(d), pos + 5, end) == NonEmpty(Kept(value))
  {
    hide SkipBlanks, ValueEnd, Kept, EndsValue, Blank, HostField, HeaderIsHost, ReadU8, At;
    var c := Memory(d);
    HostFieldIsCaptured(d, pos, end);
    var start := SkipBlanks(c, pos + 5, end);
    var stop := ValueEnd(c, start, end);
    BlanksArePrinted(d, pos + 5, end);
    ValueIsPrinted(d, start, end);
    field, blanks, value := d[pos..pos + 5], d[pos + 5..start], d[start..stop];
    assert value == ValueBytes(c, start, end);
    SliceStands(d, pos, 5);
    FieldAt(d, pos, field, end);
    SliceStands(d, pos, stop - pos);
    assert d[pos..stop] == field + (blanks + value);
    if value == [] { KeptNothing(); }
  }

  lemma HostFieldIsCaptured(d: seq<byte>, pos: nat, end: nat)
    requires HeaderIsHost(Memory(d), pos, end)
    ensures pos + 5 <= |d| && pos + 5 <= end
  {
    ByteRead(d, pos + 4);
  }

  lemma KeptNothing()
    ensures Kept([]) == []
  {
  }

  lemma FirstHeader(d: seq<byte>, pos: nat, end: nat, budget: nat)
    requires FindHost(Memory(d), pos, end, budget).Some?
    ensures var c := Memory(d);
      && budget > 0
      && (ReadU8(c, pos) == Some(CR) ==> ReadU8(c, pos + 1).Some? && ReadU8(c, pos + 1) != Some(LF))
      && if HeaderIsHost(c, pos, end) then FindHost(c, pos, end, budget) == HostValue(c, pos + 5, end)
         else
           && FirstCrlf(c, pos, end).Some?
           && FindHost(c, pos, end, budget) == FindHost(c, FirstCrlf(c, pos, end).value + 2, end, budget - 1)
  {
    hide FirstCrlf, HostValue, HeaderIsHost, ReadU8;
  }

  lemma {:induction false} HeadersArePrinted(d: seq<byte>, pos: nat, end: nat, budget: nat)
      returns (earlier: seq<seq<byte>>, field: seq<byte>, blanks: seq<byte>, value: seq<byte>)
    requires FindHost(Memory(d), pos, end, budget).Some?
    ensures |earlier| < budget && (forall l :: l in earlier ==> OtherHeader(l)) && At(d, pos, Lines(earlier))
    ensures HostAt(d, pos + |Lines(earlier)|, field, blanks, value, end)
    ensures FindHost(Memory(d), pos, end, budget) == NonEmpty(Kept(value))
    decreases budget
  {
    hide FirstCrlf, HostValue, Kept, HostAt, HeaderIsHost, FindHost, ReadU8, At, OtherHeader, OneLine, Line;
    FirstHeader(d, pos, end, budget);
    if HeaderIsHost(Memory(d), pos, end) {
      earlier := [];
      field, blanks, value := HostIsPrinted(d, pos, end);
      HostFieldIsCaptured(d, pos, end);
      SliceStands(d, pos, 0);
      return;
    }
    LineIsPrinted(d, pos, end);
    var q := FirstCrlf(Memory(d), pos, end).value;
    var l := d[pos..q];
    var more;
    more, field, blanks, value := HeadersArePrinted(d, q + 2, end, budget - 1);
    earlier := [l] + more;
    OtherIsPrinted(d, pos, q, end);
    AtJoin(d, pos, Line(l), Lines(more));
    assert earlier[1..] == more;
  }

  lemma OtherIsPrinted(d: seq<byte>, pos: nat, q: nat, end: nat)
    requires pos <= q && q + 2 <= |d| && q + 2 <= end && OneLine(d[pos..q]) && At(d, pos, Line(d[pos..q]))
    requires !HeaderIsHost(Memory(d), pos, end)
    requires ReadU8(Memory(d), pos) == Some(CR) ==>
      ReadU8(Memory(d), pos + 1).Some? && ReadU8(Memory(d), pos + 1) != Some(LF)
    ensures OtherHeader(d[pos..q])
  {
    hide HostField;
    var l := d[pos..q];
    AtSplit(d, pos, l, [CR, LF]);
    FieldAt(d, pos, l, end);
    assert d[q..q + 2][0] == d[q] && d[q..q + 2][1] == d[q + 1];
  }

  /** No method holds a line end, so its four bytes lie in the first line. */
  lemma MethodIsPrinted(d: seq<byte>, pos: nat, q: nat, end: nat)
    requires pos <= q && q + 2 <= |d| && At(d, pos, Line(d[pos..q])) && IsHttpRequest(Memory(d), pos, end)
    ensures var l := d[pos..q]; |l| >= 4 && MethodStart(l[0], l[1], l[2], l[3])
  {
    var l := d[pos..q];
    AtSplit(d, pos, l, [CR, LF]);
    assert d[q..q + 2][0] == d[q] && d[q] == CR;
  }

  /** `host` is `value` cut off after 253 bytes and then bare of trailing blanks. */
  ghost predicate HostOf(host: seq<byte>, value: seq<byte>) {
    && host != [] && host <= value && |host| <= 253 && !Blank(host[|host| - 1])
    && forall i :: |host| <= i < |value| && i < 253 ==> Blank(value[i])
  }

  lemma {:induction false} TrimEndIs(s: seq<byte>)
    ensures var t := TrimEnd(s);
      t <= s && (t != [] ==> !Blank(t[|t| - 1])) && forall i :: |t| <= i < |s| ==> Blank(s[i])
  {
    if s != [] && Blank(s[|s| - 1]) {
      TrimEndIs(s[..|s| - 1]);
    }
  }

  lemma {:induction false} TrimEndIsOnly(s: seq<byte>, t: seq<byte>)
    requires t <= s && (t != [] ==> !Blank(t[|t| - 1])) && forall i :: |t| <= i < |s| ==> Blank(s[i])
    ensures TrimEnd(s) == t
  {
    if s != [] && Blank(s[|s| - 1]) {
      TrimEndIsOnly(s[..|s| - 1], t);
    }
  }

  lemma HostOfIff(host: seq<byte>, value: seq<byte>)
    ensures NonEmpty(Kept(value)) == Some(host) <==> HostOf(host, value)
  {
    hide TrimEnd;
    var cut := value[..Min(|value|, MAX_HTTP_HOST_LEN)];
    TrimEndIs(cut);
    if HostOf(host, value) {
      assert host == cut[..|host|] by { assert host == value[..|host|]; }
      TrimEndIsOnly(cut, host);
    }
  }

  function Text(s: seq<byte>): (t: string)
    ensures |t| == |s| && forall i :: 0 <= i < |s| ==> t[i] == s[i] as char
  {
    seq(|s|, i requires 0 <= i < |s| => s[i] as char)
  }

  lemma SameFour(s: string, t: string)
    requires |s| == |t| == 4
    ensures s == t <==> s[0] == t[0] && s[1] == t[1] && s[2] == t[2] && s[3] == t[3]
  {
  }

  /** The methods, by their first four characters. */
  lemma MethodsAre(s: seq<byte>)
    requires |s| == 4
    ensures MethodStart(s[0], s[1], s[2], s[3]) <==>
      Text(s) in ["GET ", "POST", "HEAD", "PUT ", "DELE", "OPTI", "PATC", "CONN"]
  {
    var t := Text(s);
    SameFour(t, "GET ");
    SameFour(t, "POST");
    SameFour(t, "HEAD");
    SameFour(t, "PUT ");
    SameFour(t, "DELE");
    SameFour(t, "OPTI");
    SameFour(t, "PATC");
    SameFour(t, "CONN");
  }

  /** The field name in any letter case with its colon, the blanks and what ends a value, by their characters. */
  lemma CharactersAre(s: seq<byte>)
    requires |s| == 5
    ensures HostLine(s) <==>
      var t := Text(s);
      t[0] in "Hh" && t[1] in "Oo" && t[2] in "Ss" && t[3] in "Tt" && t[4] == ':'
    ensures Blank(s[0]) <==> Text(s)[0] in " \t"
    ensures EndsValue(s[0]) <==> Text(s)[0] in "\r\n:"
  {
  }

  /** The request `r` stands at `pos` and its host value ends inside the scanned bytes. */
  ghost predicate RequestAt(d: seq<byte>, pos: nat, r: Request, end: nat) {
    && r.Valid() && At(d, pos, r.Print())
    && var scanEnd, stop := Min(end, pos + MAX_HTTP_SCAN), pos + |r.Print()|;
       stop <= scanEnd && (stop < scanEnd && stop < |d| ==> EndsValue(d[stop]))
  }

  /** Every host that is reported is that of a request at the start of the window. */
  lemma ReportedIsPrinted(d: seq<byte>, pos: nat, end: nat) returns (r: Request)
    requires HttpHostName(Memory(d), pos, end).Some?
    ensures RequestAt(d, pos, r, end) && |r.earlier| < MAX_HTTP_HEADERS
    ensures HttpHostName(Memory(d), pos, end) == NonEmpty(Kept(r.value))
  {
    hide FirstCrlf, FindHost, Kept, MethodStart, EndsValue, Lines, HostField, At, OneLine, Line, IsHttpRequest;
    var scanEnd: nat := Min(end, pos + MAX_HTTP_SCAN);
    LineIsPrinted(d, pos, scanEnd);
    var q := FirstCrlf(Memory(d), pos, scanEnd).value;
    var line := d[pos..q];
    var earlier, field, blanks, value := HeadersArePrinted(d, q + 2, scanEnd, MAX_HTTP_HEADERS);
    r := Request(line, earlier, field, blanks, value);
    MethodIsPrinted(d, pos, q, scanEnd);
    AtJoin(d, q + 2, Lines(earlier), field + (blanks + value));
    AtJoin(d, pos, Line(line), Lines(earlier) + (field + (blanks + value)));
  }

  /**
   * A host is reported exactly when a request with that host stands at the start
   * of the window, with fewer than 16 headers before the host and its end inside
   * the first 512 bytes.
   */
  lemma HostIff(d: seq<byte>, pos: nat, end: nat, host: seq<byte>)
    ensures HttpHostName(Memory(d), pos, end) == Some(host) <==> exists r: Request ::
      RequestAt(d, pos, r, end) && |r.earlier| < MAX_HTTP_HEADERS && HostOf(host, r.value)
  {
    hide HttpHostName, Kept, NonEmpty, At, EndsValue;
    if HttpHostName(Memory(d), pos, end) == Some(host) {
      var r := ReportedIsPrinted(d, pos, end);
      HostOfIff(host, r.value);
    }
    forall r: Request | RequestAt(d, pos, r, end) && |r.earlier| < MAX_HTTP_HEADERS && HostOf(host, r.value)
      ensures HttpHostName(Memory(d), pos, end) == Some(host)
    {
      HostOfIff(host, r.value);
      HttpHostInvertsPrint(d, pos, r, end);
    }
  }
}
