/** A records of a DNS response, paired with the question name. */
module Dns {
  import opened Common
  import opened Cursors

  const MAX_DNS_ANSWERS := 8
  const MAX_DNS_LABELS := 16
  const DOT: byte := 46

  datatype Answer = Answer(name: seq<byte>, ttl: u32, address: seq<byte>)

  // ---------------------------------------------------------- specification

  type Labels = seq<seq<byte>>

  /** The displayed form: labels joined by dots. */
  function Dotted(labels: Labels): seq<byte> {
    if labels == [] then []
    else if |labels| == 1 then labels[0]
    else Dotted(labels[..|labels| - 1]) + [DOT] + labels[|labels| - 1]
  }

  datatype Wire = NoName | Name(labels: Labels, next: nat)

  function Prepend(labels: Labels, w: Wire): Wire {
    match w case NoName => NoName case Name(more, next) => Name(labels + more, next)
  }

  /** An uncompressed name at `pos`, root label included, read in at most `budget` length bytes. */
  function WireName(c: Cursor, pos: nat, end: nat, budget: nat): (w: Wire)
    ensures w.Name? ==> pos < w.next <= end && forall l :: l in w.labels ==> l != []
    decreases end - pos
  {
    if budget == 0 || !Within(pos, 1, end) then NoName
    else
      match ReadU8(c, pos)
      case None => NoName
      case Some(len) =>
        if len == 0 then Name([], pos + 1)
        else if len > 63 || !Within(pos + 1, len, end) || !Allowed(c, pos + 1, len) then NoName
        else Prepend([c.data[pos + 1..pos + 1 + len]], WireName(c, pos + 1 + len, end, budget - 1))
  }

  function QuestionName(c: Cursor, pos: nat, end: nat): Wire {
    match WireName(c, pos, end, MAX_DNS_LABELS)
    case NoName => NoName
    case Name(labels, next) => if |Dotted(labels)| <= DOMAIN_MAX_LEN then Name(labels, next) else NoName
  }

  /** Position after an owner name, which may end in a compression pointer. */
  function OwnerEnd(c: Cursor, pos: nat, end: nat, budget: nat): (r: Option<nat>)
    ensures r.Some? ==> pos < r.value <= end
    decreases end - pos
  {
    if budget == 0 || !Within(pos, 1, end) then None
    else
      match ReadU8(c, pos)
      case None => None
      case Some(len) =>
        if len == 0 then Some(pos + 1)
        else if len >= 0xC0 then (if Within(pos + 1, 1, end) then Some(pos + 2) else None)
        else if len > 63 || !Within(pos + 1, len, end) then None
        else OwnerEnd(c, pos + 1 + len, end, budget - 1)
  }

  datatype RecordHead = NoRecord | Head(rtype: u16, rclass: u16, ttl: u32, rdlength: u16, data: nat)

  /** The fixed part of the record at `pos`; its data must lie inside the window. */
  function ReadRecord(c: Cursor, pos: nat, end: nat): (h: RecordHead)
    ensures h.Head? ==> pos < h.data && h.data + h.rdlength <= end
  {
    match OwnerEnd(c, pos, end, MAX_DNS_LABELS)
    case None => NoRecord
    case Some(p) =>
      if !Within(p, 10, end) then NoRecord
      else
        match (ReadU16(c, p), ReadU16(c, p + 2), ReadU32(c, p + 4), ReadU16(c, p + 8))
        case (Some(rtype), Some(rclass), Some(ttl), Some(rdlength)) =>
          if Within(p + 10, rdlength, end) then Head(rtype, rclass, ttl, rdlength, p + 10) else NoRecord
        case _ => NoRecord
  }

  predicate IsA(h: RecordHead) {
    h.Head? && h.rtype == 1 && h.rclass == 1 && h.rdlength == 4
  }

  /** Up to `want` A records among the next `visits` records. */
  function Answers(c: Cursor, pos: nat, end: nat, name: seq<byte>, want: nat, visits: nat): seq<Answer>
    decreases end - pos
  {
    if want == 0 || visits == 0 then []
    else
      var h := ReadRecord(c, pos, end);
      if h.NoRecord? then []
      else if !IsA(h) then Answers(c, h.data + h.rdlength, end, name, want, visits - 1)
      else if ReadAddress(c, h.data).None? then []
      else [Answer(name, h.ttl, ReadAddress(c, h.data).value)] + Answers(c, h.data + 4, end, name, want - 1, visits - 1)
  }

  function DnsAnswers(c: Cursor, offset: nat, end: nat): seq<Answer> {
    if !Within(offset, 12, end) then []
    else
      match (ReadU16(c, offset + 2), ReadU16(c, offset + 4), ReadU16(c, offset + 6))
      case (Some(flags), Some(questions), Some(answers)) =>
        if flags < 0x8000 || questions == 0 || answers == 0 then []
        else
          (match QuestionName(c, offset + 12, end)
           case NoName => []
           case Name(labels, next) =>
             if Dotted(labels) == [] || !Within(next, 4, end) then []
             else Answers(c, next + 4, end, Dotted(labels), Min(answers, MAX_DNS_ANSWERS), MAX_DNS_ANSWERS))
      case _ => []
  }

  // ----------------------------------------------------------------- parser

  lemma DottedSnoc(labels: Labels, lab: seq<byte>)
    ensures Dotted(labels + [lab]) == if labels == [] then lab else Dotted(labels) + [DOT] + lab
  {
    var all := labels + [lab];
    assert all[..|all| - 1] == labels;
  }

  lemma {:induction false} DottedGrows(labels: Labels, more: Labels)
    ensures |Dotted(labels + more)| >= |Dotted(labels)|
  {
    if more == [] {
      assert labels + more == labels;
    } else {
      var init, last := more[..|more| - 1], more[|more| - 1];
      DottedGrows(labels, init);
      DottedSnoc(labels + init, last);
      assert labels + more == labels + init + [last];
    }
  }

  lemma DottedNonEmpty(labels: Labels)
    requires forall l :: l in labels ==> l != []
    ensures Dotted(labels) == [] <==> labels == []
  {
    if labels != [] {
      assert labels[|labels| - 1] in labels;
    }
  }

  /** A prefix of labels that is already too long rules the whole name out. */
  lemma TooLong(c: Cursor, start: nat, end: nat, labels: Labels, w: Wire)
    requires WireName(c, start, end, MAX_DNS_LABELS) == Prepend(labels, w)
    requires |Dotted(labels)| > DOMAIN_MAX_LEN
    ensures QuestionName(c, start, end).NoName?
  {
    if w.Name? {
      DottedGrows(labels, w.labels);
    }
  }

  /** Appends one label, with a dot unless it is the first. */
  method AppendLabel(c: Cursor, position: nat, labelLen: nat, buffer: array<byte>, start: nat) returns (r: Option<nat>)
    requires buffer.Length == DOMAIN_MAX_LEN && start <= DOMAIN_MAX_LEN && 0 < labelLen
    modifies buffer
    ensures var length := start + labelLen + if start > 0 then 1 else 0;
      && r == (if length <= DOMAIN_MAX_LEN && Allowed(c, position, labelLen) then Some(length) else None)
      && (r.Some? ==>
            buffer[..length]
            == old(buffer[..start]) + (if start > 0 then [DOT] else []) + c.data[position..position + labelLen])
  {
    var length := start;
    if length > 0 {
      if length + 1 >= DOMAIN_MAX_LEN {
        return None;
      }
      buffer[length] := DOT;
      length := length + 1;
    }
    if length + labelLen > DOMAIN_MAX_LEN {
      return None;
    }
    ghost var before := buffer[..length];
    assert before == old(buffer[..start]) + if start > 0 then [DOT] else [];
    var ok := CopyBytes(c, position, buffer, length, labelLen);
    if !ok {
      return None;
    }
    assert buffer[..length + labelLen] == before + buffer[length..length + labelLen];
    return Some(length + labelLen);
  }

  /** `labels` are read, `position` is next and `budget` length bytes may still be read. */
  ghost predicate Reading(c: Cursor, start: nat, end: nat, labels: Labels, position: nat, budget: nat) {
    && |Dotted(labels)| <= DOMAIN_MAX_LEN && (Dotted(labels) == [] <==> labels == [])
    && WireName(c, start, end, MAX_DNS_LABELS) == Prepend(labels, WireName(c, position, end, budget))
  }

  method ReadQuestionName(c: Cursor, start: nat, end: nat, buffer: array<byte>) returns (r: Option<nat>, position: nat)
    requires buffer.Length == DOMAIN_MAX_LEN
    modifies buffer
    ensures r.Some? <==> QuestionName(c, start, end).Name?
    ensures r.Some? ==> position == QuestionName(c, start, end).next
    ensures r.Some? ==> r.value <= DOMAIN_MAX_LEN && buffer[..r.value] == Dotted(QuestionName(c, start, end).labels)
  {
    hide WireName, QuestionName, Dotted, ReadU8, Reading;
    position := start;
    var length: nat := 0;
    ghost var labels: Labels := [];
    ghost var budget: nat := MAX_DNS_LABELS;
    NameStarts(c, start, end);
    for i := 0 to MAX_DNS_LABELS
      invariant length <= DOMAIN_MAX_LEN && buffer[..length] == Dotted(labels)
      invariant Reading(c, start, end, labels, position, budget) && budget == MAX_DNS_LABELS - i
    {
      budget := budget - 1;
      NameStops(c, start, end, labels, position, budget);
      if !Within(position, 1, end) {
        return None, position;
      }
      var labelLen := ReadU8(c, position);
      if labelLen.None? {
        return None, position;
      }
      position := position + 1;
      if labelLen.value == 0 {
        return Some(length), position;
      }
      if labelLen.value >= 64 || !Within(position, labelLen.value, end) {
        return None, position;
      }
      var appended := AppendLabel(c, position, labelLen.value, buffer, length);
      labels := NameStep(c, start, end, labels, position, labelLen.value, budget);
      if appended.None? {
        return None, position;
      }
      length := appended.value;
      position := position + labelLen.value;
    }
    NameExhausted(c, start, end, labels, position);
    r := None;
  }

  lemma NameStarts(c: Cursor, start: nat, end: nat)
    ensures Reading(c, start, end, [], start, MAX_DNS_LABELS) && Dotted([]) == []
  {
    hide WireName;
    var w := WireName(c, start, end, MAX_DNS_LABELS);
    if w.Name? { assert [] + w.labels == w.labels; }
  }

  lemma NameExhausted(c: Cursor, start: nat, end: nat, labels: Labels, position: nat)
    requires Reading(c, start, end, labels, position, 0)
    ensures QuestionName(c, start, end).NoName?
  {
  }

  /** Where the walk ends: at the root label, or because no further label fits the window. */
  lemma NameStops(c: Cursor, start: nat, end: nat, labels: Labels, position: nat, budget: nat)
    requires Reading(c, start, end, labels, position, budget + 1)
    ensures var len := ReadU8(c, position);
      var stops := len.None? || len.value > 63 || (len.value > 0 && !Within(position + 1, len.value, end));
      && (!Within(position, 1, end) || stops ==> QuestionName(c, start, end).NoName?)
      && (Within(position, 1, end) && len == Some(0) ==> QuestionName(c, start, end) == Name(labels, position + 1))
  {
    assert labels + [] == labels;
  }

  /** One more label on both sides; too long a name is no name. */
  lemma NameStep(c: Cursor, start: nat, end: nat, labels: Labels, position: nat, labelLen: nat, budget: nat)
      returns (more: Labels)
    requires 0 < labelLen < 64 && position > 0 && ReadU8(c, position - 1) == Some(labelLen)
    requires position + labelLen <= end
    requires Reading(c, start, end, labels, position - 1, budget + 1)
    ensures !Allowed(c, position, labelLen) ==> QuestionName(c, start, end).NoName?
    ensures Allowed(c, position, labelLen) ==>
      && Dotted(more) == Dotted(labels) + (if Dotted(labels) != [] then [DOT] else [])
        + c.data[position..position + labelLen]
      && (|Dotted(more)| <= DOMAIN_MAX_LEN ==> Reading(c, start, end, more, position + labelLen, budget))
      && (|Dotted(more)| > DOMAIN_MAX_LEN ==> QuestionName(c, start, end).NoName?)
  {
    more := [];
    if Allowed(c, position, labelLen) {
      var lab := c.data[position..position + labelLen];
      more := labels + [lab];
      var tail := WireName(c, position + labelLen, end, budget);
      PrependTwice(labels, lab, tail);
      DottedSnoc(labels, lab);
      if |Dotted(more)| > DOMAIN_MAX_LEN {
        TooLong(c, start, end, more, tail);
      }
    }
  }

  lemma PrependTwice(labels: Labels, lab: seq<byte>, w: Wire)
    ensures Prepend(labels, Prepend([lab], w)) == Prepend(labels + [lab], w)
  {
    if w.Name? {
      assert labels + ([lab] + w.labels) == labels + [lab] + w.labels;
    }
  }

  method SkipAnswerName(c: Cursor, start: nat, end: nat) returns (ok: bool, position: nat)
    ensures ok <==> OwnerEnd(c, start, end, MAX_DNS_LABELS).Some?
    ensures ok ==> position == OwnerEnd(c, start, end, MAX_DNS_LABELS).value
  {
    position := start;
    for i := 0 to MAX_DNS_LABELS
      invariant OwnerEnd(c, start, end, MAX_DNS_LABELS) == OwnerEnd(c, position, end, MAX_DNS_LABELS - i)
    {
      if !Within(position, 1, end) {
        return false, position;
      }
      var labelLen := ReadU8(c, position);
      if labelLen.None? {
        return false, position;
      }
      position := position + 1;
      if labelLen.value == 0 {
        return true, position;
      }
      if labelLen.value / 0x40 == 3 {
        if !Within(position, 1, end) {
          return false, position;
        }
        return true, position + 1;
      }
      if labelLen.value > 63 || !Within(position, labelLen.value, end) {
        return false, position;
      }
      position := position + labelLen.value;
    }
    ok := false;
  }

  /** `answers` collects what the caller's closure is given. */
  method ReadAnswers(c: Cursor, start: nat, end: nat, name: seq<byte>, want: nat)
      returns (emitted: nat, answers: seq<Answer>)
    ensures answers == Answers(c, start, end, name, want, MAX_DNS_ANSWERS) && emitted == |answers|
  {
    hide OwnerEnd, ReadU8, ReadU16, ReadU32, Answers, ReadRecord, IsA;
    emitted, answers := 0, [];
    var position: nat := start;
    ghost var all := Answers(c, start, end, name, want, MAX_DNS_ANSWERS);
    ghost var visits: nat := MAX_DNS_ANSWERS;
    for i := 0 to MAX_DNS_ANSWERS
      invariant emitted == |answers| <= want && visits == MAX_DNS_ANSWERS - i
      invariant all == answers + Answers(c, position, end, name, want - emitted, visits)
    {
      AnswersStep(c, position, end, name, want - emitted, visits);
      visits := visits - 1;
      if emitted == want {
        break;
      }
      var ok;
      ghost var at := position;
      ok, position := SkipAnswerName(c, position, end);
      if ok { RecordRead(c, at, end, position); } else { RecordMissing(c, at, end); }
      if !ok || !Within(position, 10, end) {
        break;
      }
      var rtype, rclass, ttl, rdlength :=
        ReadU16(c, position), ReadU16(c, position + 2), ReadU32(c, position + 4), ReadU16(c, position + 8);
      if rtype.None? || rclass.None? || ttl.None? || rdlength.None? {
        break;
      }
      position := position + 10;
      if !Within(position, rdlength.value, end) {
        break;
      }
      if rtype.value == 1 && rclass.value == 1 && rdlength.value == 4 {
        var address := ReadAddress(c, position);
        if address.None? {
          break;
        }
        answers := answers + [Answer(name, ttl.value, address.value)];
        emitted := emitted + 1;
      }
      position := position + rdlength.value;
    }
    AnswersStep(c, position, end, name, want - emitted, visits);
  }

  lemma AnswersStep(c: Cursor, pos: nat, end: nat, name: seq<byte>, want: nat, visits: nat)
    ensures var h, rest := ReadRecord(c, pos, end), Answers(c, pos, end, name, want, visits);
      if want == 0 || visits == 0 || h.NoRecord? then rest == []
      else if !(h.rtype == 1 && h.rclass == 1 && h.rdlength == 4) then
        rest == Answers(c, h.data + h.rdlength, end, name, want, visits - 1)
      else if ReadAddress(c, h.data).None? then rest == []
      else
        var first := Answer(name, h.ttl, ReadAddress(c, h.data).value);
        rest == [first] + Answers(c, h.data + 4, end, name, want - 1, visits - 1)
  {
    hide ReadRecord;
  }

  lemma RecordMissing(c: Cursor, at: nat, end: nat)
    requires OwnerEnd(c, at, end, MAX_DNS_LABELS).None?
    ensures ReadRecord(c, at, end).NoRecord?
  {
  }

  lemma RecordRead(c: Cursor, at: nat, end: nat, p: nat)
    requires OwnerEnd(c, at, end, MAX_DNS_LABELS) == Some(p)
    ensures var rtype, rclass, ttl, rdlength := ReadU16(c, p), ReadU16(c, p + 2), ReadU32(c, p + 4), ReadU16(c, p + 8);
      ReadRecord(c, at, end) ==
        if Within(p, 10, end) && rtype.Some? && rclass.Some? && ttl.Some?
          && rdlength.Some? && Within(p + 10, rdlength.value, end)
        then Head(rtype.value, rclass.value, ttl.value, rdlength.value, p + 10) else NoRecord
  {
    hide OwnerEnd, ReadU16, ReadU32;
  }

  function ReadAddress(c: Cursor, position: nat): (r: Option<seq<byte>>)
    ensures r == if Allowed(c, position, 4) then Some(c.data[position..position + 4]) else None
  {
    match (ReadU8(c, position), ReadU8(c, position + 1), ReadU8(c, position + 2), ReadU8(c, position + 3))
    case (Some(b0), Some(b1), Some(b2), Some(b3)) =>
      assert c.data[position..position + 4] == [b0, b1, b2, b3];
      Some([b0, b1, b2, b3])
    case _ => None
  }

  method ParseDnsResponse(c: Cursor, offset: nat, end: nat, buffer: array<byte>)
      returns (emitted: nat, answers: seq<Answer>)
    requires buffer.Length == DOMAIN_MAX_LEN
    modifies buffer
    ensures answers == DnsAnswers(c, offset, end) && emitted == |answers|
  {
    hide QuestionName, Dotted, Answers;
    emitted, answers := 0, [];
    if !Within(offset, 12, end) {
      return;
    }
    var flags := ReadU16(c, offset + 2);
    if flags.None? || flags.value / 0x8000 == 0 {
      return;
    }
    var questions := ReadU16(c, offset + 4);
    if questions.None? || questions.value == 0 {
      return;
    }
    var count := ReadU16(c, offset + 6);
    if count.None? || count.value == 0 {
      return;
    }
    var nameLen, position := ReadQuestionName(c, offset + 12, end, buffer);
    if nameLen.None? || nameLen.value == 0 || !Within(position, 4, end) {
      return;
    }
    emitted, answers := ReadAnswers(c, position + 4, end, buffer[..nameLen.value], Min(count.value, MAX_DNS_ANSWERS));
  }

  // ------------------------------------------------------------ independence

  lemma {:induction false} WireNameInWindow(c: Cursor, d: Cursor, offset: nat, pos: nat, end: nat, budget: nat)
    requires Agree(c, d, offset, end) && offset <= pos
    ensures WireName(c, pos, end, budget) == WireName(d, pos, end, budget)
    decreases end - pos
  {
    hide ReadU8, Agree, Prepend, WireName;
    WireNameStep(c, pos, end, budget);
    WireNameStep(d, pos, end, budget);
    if budget > 0 && Within(pos, 1, end) {
      AgreeReads(c, d, offset, end, pos);
      var len := ReadU8(c, pos);
      if len.Some? && 0 < len.value <= 63 && Within(pos + 1, len.value, end) {
        AgreeBytes(c, d, offset, end, pos + 1, len.value);
        WireNameInWindow(c, d, offset, pos + 1 + len.value, end, budget - 1);
      }
    }
  }

  lemma WireNameStep(c: Cursor, pos: nat, end: nat, budget: nat)
    ensures var len := ReadU8(c, pos);
      WireName(c, pos, end, budget) ==
        if budget == 0 || !Within(pos, 1, end) || len.None? then NoName
        else if len.value == 0 then Name([], pos + 1)
        else if len.value > 63 || !Within(pos + 1, len.value, end) || !Allowed(c, pos + 1, len.value) then NoName
        else Prepend([c.data[pos + 1..pos + 1 + len.value]], WireName(c, pos + 1 + len.value, end, budget - 1))
  {
    hide ReadU8, Prepend;
  }

  lemma {:induction false} OwnerEndInWindow(c: Cursor, d: Cursor, offset: nat, pos: nat, end: nat, budget: nat)
    requires Agree(c, d, offset, end) && offset <= pos
    ensures OwnerEnd(c, pos, end, budget) == OwnerEnd(d, pos, end, budget)
    decreases end - pos
  {
    if budget > 0 && Within(pos, 1, end) {
      AgreeReads(c, d, offset, end, pos);
      var len := ReadU8(c, pos);
      if len.Some? && 0 < len.value <= 63 && Within(pos + 1, len.value, end) {
        OwnerEndInWindow(c, d, offset, pos + 1 + len.value, end, budget - 1);
      }
    }
  }

  lemma ReadRecordInWindow(c: Cursor, d: Cursor, offset: nat, pos: nat, end: nat)
    requires Agree(c, d, offset, end) && offset <= pos
    ensures ReadRecord(c, pos, end) == ReadRecord(d, pos, end)
  {
    hide ReadU8, ReadU16, ReadU32, Agree, OwnerEnd;
    OwnerEndInWindow(c, d, offset, pos, end, MAX_DNS_LABELS);
    var p := OwnerEnd(c, pos, end, MAX_DNS_LABELS);
    if p.Some? && Within(p.value, 10, end) {
      AgreeReads(c, d, offset, end, p.value);
      AgreeReads(c, d, offset, end, p.value + 2);
      AgreeReads(c, d, offset, end, p.value + 4);
      AgreeReads(c, d, offset, end, p.value + 8);
    }
  }

  ghost predicate SameAnswers(c: Cursor, d: Cursor, pos: nat, end: nat, name: seq<byte>, want: nat, visits: nat) {
    Answers(c, pos, end, name, want, visits) == Answers(d, pos, end, name, want, visits)
  }

  lemma {:induction false} AnswersInWindow(
      c: Cursor, d: Cursor, offset: nat, pos: nat, end: nat, name: seq<byte>, want: nat, visits: nat)
    requires Agree(c, d, offset, end) && offset <= pos <= end
    ensures SameAnswers(c, d, pos, end, name, want, visits)
    decreases end - pos
  {
    hide Agree, ReadRecord, ReadU8;
    if want > 0 && visits > 0 {
      ReadRecordInWindow(c, d, offset, pos, end);
      var h := ReadRecord(c, pos, end);
      if h.Head? {
        if IsA(h) {
          AgreeBytes(c, d, offset, end, h.data, 4);
          AnswersInWindow(c, d, offset, h.data + 4, end, name, want - 1, visits - 1);
        } else {
          AnswersInWindow(c, d, offset, h.data + h.rdlength, end, name, want, visits - 1);
        }
      }
    }
  }

  /** The answers depend on the bytes of `[offset, end)` alone. */
  lemma DnsInWindow(c: Cursor, d: Cursor, offset: nat, end: nat)
    requires Agree(c, d, offset, end)
    ensures DnsAnswers(c, offset, end) == DnsAnswers(d, offset, end)
  {
    hide ReadU8, ReadU16, ReadU32, Agree, WireName, Answers, Dotted;
    if Within(offset, 12, end) {
      AgreeReads(c, d, offset, end, offset + 2);
      AgreeReads(c, d, offset, end, offset + 4);
      AgreeReads(c, d, offset, end, offset + 6);
      WireNameInWindow(c, d, offset, offset + 12, end, MAX_DNS_LABELS);
      var q := QuestionName(c, offset + 12, end);
      if q.Name? && Within(q.next, 4, end) && ReadU16(c, offset + 6).Some? {
        var want := Min(ReadU16(c, offset + 6).value, MAX_DNS_ANSWERS);
        AnswersInWindow(c, d, offset, q.next + 4, end, Dotted(q.labels), want, MAX_DNS_ANSWERS);
      }
    }
  }

  // ------------------------------------------------------- print and parse

  ghost predicate ValidLabels(labels: Labels) {
    forall l :: l in labels ==> 1 <= |l| <= 63
  }

  /** Length-prefixed labels, without the terminator. */
  function PrintLabels(labels: Labels): seq<byte>
    requires ValidLabels(labels)
  {
    if labels == [] then []
    else
      assert forall l :: l in labels[1..] ==> l in labels;
      assert labels[0] in labels;
      [|labels[0]|] + labels[0] + PrintLabels(labels[1..])
  }

  /** An owner name: labels closed by the root, or by a compression pointer. */
  datatype Owner = Owner(labels: Labels, pointer: Option<(byte, byte)>) {
    ghost predicate Valid() {
      ValidLabels(labels) && |labels| < MAX_DNS_LABELS && (pointer.Some? ==> pointer.value.0 >= 0xC0)
    }

    ghost function Print(): seq<byte>
      requires Valid()
    {
      PrintLabels(labels) + if pointer.Some? then [pointer.value.0, pointer.value.1] else [0]
    }
  }

  datatype Record = Record(owner: Owner, rtype: u16, rclass: u16, ttl: u32, data: seq<byte>) {
    ghost predicate Valid() {
      owner.Valid() && |data| < 0x1_0000
    }

    predicate IsAddress() {
      rtype == 1 && rclass == 1 && |data| == 4
    }

    ghost function Fixed(): seq<byte>
      requires Valid()
    {
      Be16(rtype) + Be16(rclass) + Be32(ttl) + Be16(|data|)
    }

    ghost function Print(): seq<byte>
      requires Valid()
    {
      owner.Print() + Fixed() + data
    }
  }

  ghost function PrintRecords(rs: seq<Record>): seq<byte>
    requires forall r :: r in rs ==> r.Valid()
  {
    if rs == [] then []
    else
      assert rs[0] in rs;
      assert forall r :: r in rs[1..] ==> r in rs;
      rs[0].Print() + PrintRecords(rs[1..])
  }

  /**
   * A message that holds one question. `records` are all records of all sections;
   * the first `answers` of them are the answer section.
   */
  datatype Message = Message(
    id: seq<byte>, flags: u16, questions: u16, answers: u16, others: seq<byte>,
      question: Labels, qtype: seq<byte>, records: seq<Record>)
  {
    ghost predicate Valid() {
      && |id| == 2 && |others| == 4 && |qtype| == 4
      && ValidLabels(question)
      && forall r :: r in records ==> r.Valid()
    }

    /** The message is a response that counts a question and an answer, with a name that the parser reads. */
    predicate Readable() {
      && flags >= 0x8000 && questions > 0 && answers > 0
      && question != [] && |question| < MAX_DNS_LABELS && |Dotted(question)| <= DOMAIN_MAX_LEN
    }

    /** The same message without its later sections. */
    ghost function AnswersOnly(): (m: Message)
      requires answers <= |records|
      ensures Valid() ==> m.Valid()
    {
      this.(records := records[..answers])
    }

    ghost function Header(): (h: seq<byte>)
      requires Valid()
      ensures |h| == 12
    {
      id + Be16(flags) + Be16(questions) + Be16(answers) + others
    }

    ghost function Print(): seq<byte>
      requires Valid()
    {
      Header() + PrintLabels(question) + [0] + qtype + PrintRecords(records)
    }
  }

  /** The addresses a reader of at most `want` answers among `visits` records reports. */
  function Meaning(rs: seq<Record>, name: seq<byte>, want: nat, visits: nat): seq<Answer> {
    if rs == [] || want == 0 || visits == 0 then []
    else if rs[0].IsAddress() then [Answer(name, rs[0].ttl, rs[0].data)] + Meaning(rs[1..], name, want - 1, visits - 1)
    else Meaning(rs[1..], name, want, visits - 1)
  }

  lemma {:induction false} LabelsRead(d: seq<byte>, pos: nat, end: nat, labels: Labels, budget: nat)
    requires ValidLabels(labels) && At(d, pos, PrintLabels(labels) + [0]) && pos + |PrintLabels(labels)| + 1 <= end
    ensures WireName(Memory(d), pos, end, budget) ==
      if |labels| < budget then Name(labels, pos + |PrintLabels(labels)| + 1) else NoName
    decreases |labels|
  {
    hide ReadU8, Prepend;
    if budget > 0 {
      if labels == [] {
        AtByte(d, pos, 0);
      } else {
        LabelRead(d, pos, end, labels, budget);
        LabelsRead(d, pos + 1 + |labels[0]|, end, labels[1..], budget - 1);
        PrependRest(labels, pos + |PrintLabels(labels)| + 1);
      }
    }
  }

  lemma PrependRest(labels: Labels, next: nat)
    requires labels != []
    ensures Prepend([labels[0]], Name(labels[1..], next)) == Name(labels, next)
    ensures Prepend([labels[0]], NoName) == NoName
  {
    assert [labels[0]] + labels[1..] == labels;
  }

  lemma PrintLabelsUnfolds(labels: Labels)
    requires ValidLabels(labels) && labels != []
    ensures ValidLabels(labels[1..]) && 1 <= |labels[0]| <= 63
    ensures PrintLabels(labels) == [|labels[0]|] + labels[0] + PrintLabels(labels[1..])
  {
    assert labels[0] in labels;
    assert forall l :: l in labels[1..] ==> l in labels;
  }

  /** The first of several printed labels, and where the rest stands. */
  lemma LabelAt(d: seq<byte>, pos: nat, labels: Labels, tail: seq<byte>)
    requires ValidLabels(labels) && labels != [] && At(d, pos, PrintLabels(labels) + tail)
    ensures ValidLabels(labels[1..]) && 1 <= |labels[0]| <= 63
    ensures ReadU8(Memory(d), pos) == Some(|labels[0]|)
    ensures At(d, pos + 1, labels[0])
    ensures At(d, pos + 1 + |labels[0]|, PrintLabels(labels[1..]) + tail)
    ensures |PrintLabels(labels)| == 1 + |labels[0]| + |PrintLabels(labels[1..])|
  {
    hide PrintLabels, ReadU8, At;
    PrintLabelsUnfolds(labels);
    var rest := PrintLabels(labels[1..]) + tail;
    assert PrintLabels(labels) + tail == [|labels[0]|] + (labels[0] + rest);
    AtSplit(d, pos, [|labels[0]|], labels[0] + rest);
    AtSplit(d, pos + 1, labels[0], rest);
    AtByte(d, pos, |labels[0]|);
  }

  lemma LabelRead(d: seq<byte>, pos: nat, end: nat, labels: Labels, budget: nat)
    requires ValidLabels(labels) && At(d, pos, PrintLabels(labels) + [0]) && pos + |PrintLabels(labels)| + 1 <= end
    requires labels != [] && budget > 0
    ensures ValidLabels(labels[1..]) && At(d, pos + 1 + |labels[0]|, PrintLabels(labels[1..]) + [0])
    ensures |PrintLabels(labels)| == 1 + |labels[0]| + |PrintLabels(labels[1..])|
    ensures WireName(Memory(d), pos, end, budget)
         == Prepend([labels[0]], WireName(Memory(d), pos + 1 + |labels[0]|, end, budget - 1))
  {
    hide PrintLabels, Prepend, ReadU8;
    LabelAt(d, pos, labels, [0]);
    assert Allowed(Memory(d), pos + 1, |labels[0]|);
  }

  /** A printed question name is read back exactly when it has at most 15 labels and 253 bytes. */
  lemma QuestionNameReadIff(d: seq<byte>, pos: nat, end: nat, labels: Labels)
    requires ValidLabels(labels) && At(d, pos, PrintLabels(labels) + [0]) && pos + |PrintLabels(labels)| + 1 <= end
    ensures QuestionName(Memory(d), pos, end) ==
      if |labels| < MAX_DNS_LABELS && |Dotted(labels)| <= DOMAIN_MAX_LEN
      then Name(labels, pos + |PrintLabels(labels)| + 1) else NoName
  {
    hide WireName;
    LabelsRead(d, pos, end, labels, MAX_DNS_LABELS);
  }

  lemma {:induction false} OwnerSkipped(d: seq<byte>, pos: nat, end: nat, labels: Labels, tail: seq<byte>, budget: nat)
    requires ValidLabels(labels) && |labels| < budget
    requires tail == [0] || (|tail| == 2 && tail[0] >= 0xC0)
    requires At(d, pos, PrintLabels(labels) + tail) && pos + |PrintLabels(labels)| + |tail| <= end
    ensures OwnerEnd(Memory(d), pos, end, budget) == Some(pos + |PrintLabels(labels)| + |tail|)
    decreases |labels|
  {
    hide ReadU8, Allowed;
    if labels == [] {
      assert PrintLabels(labels) + tail == [tail[0]] + tail[1..];
      AtSplit(d, pos, [tail[0]], tail[1..]);
      AtByte(d, pos, tail[0]);
    } else {
      hide PrintLabels, At;
      LabelAt(d, pos, labels, tail);
      OwnerSkipped(d, pos + 1 + |labels[0]|, end, labels[1..], tail, budget - 1);
    }
  }

  lemma FixedRead(d: seq<byte>, p: nat, r: Record)
    requires r.Valid() && At(d, p, r.Fixed())
    ensures ReadU16(Memory(d), p) == Some(r.rtype) && ReadU16(Memory(d), p + 2) == Some(r.rclass)
    ensures ReadU32(Memory(d), p + 4) == Some(r.ttl) && ReadU16(Memory(d), p + 8) == Some(|r.data|)
    ensures |r.Fixed()| == 10
  {
    hide Be16, Be32, ReadU16, ReadU32;
    AtSplit(d, p, Be16(r.rtype) + Be16(r.rclass) + Be32(r.ttl), Be16(|r.data|));
    AtSplit(d, p, Be16(r.rtype) + Be16(r.rclass), Be32(r.ttl));
    AtSplit(d, p, Be16(r.rtype), Be16(r.rclass));
    At16(d, p, r.rtype);
    At16(d, p + 2, r.rclass);
    At32(d, p + 4, r.ttl);
    At16(d, p + 8, |r.data|);
  }

  /** Where the parts of a printed record stand. */
  lemma RecordAt(d: seq<byte>, pos: nat, r: Record)
    requires r.Valid() && At(d, pos, r.Print())
    ensures var p := pos + |r.owner.Print()|;
      && At(d, pos, r.owner.Print()) && At(d, p, r.Fixed()) && At(d, p + 10, r.data) && |r.Fixed()| == 10
      && |r.Print()| == |r.owner.Print()| + 10 + |r.data|
  {
    hide PrintLabels, At;
    AtSplit(d, pos, r.owner.Print() + r.Fixed(), r.data);
    AtSplit(d, pos, r.owner.Print(), r.Fixed());
  }

  lemma OwnerRead(d: seq<byte>, pos: nat, end: nat, o: Owner)
    requires o.Valid() && At(d, pos, o.Print()) && pos + |o.Print()| <= end
    ensures OwnerEnd(Memory(d), pos, end, MAX_DNS_LABELS) == Some(pos + |o.Print()|)
  {
    hide OwnerEnd, PrintLabels, At;
    var tail := if o.pointer.Some? then [o.pointer.value.0, o.pointer.value.1] else [0];
    OwnerSkipped(d, pos, end, o.labels, tail, MAX_DNS_LABELS);
  }

  /** The fixed part behind an owner that ends at `p`. */
  lemma RecordReadBack(d: seq<byte>, pos: nat, end: nat, r: Record, p: nat)
    requires r.Valid() && OwnerEnd(Memory(d), pos, end, MAX_DNS_LABELS) == Some(p)
    requires At(d, p, r.Fixed()) && p + 10 + |r.data| <= end
    ensures ReadRecord(Memory(d), pos, end) == Head(r.rtype, r.rclass, r.ttl, |r.data|, p + 10)
  {
    hide OwnerEnd, Record.Fixed, ReadU16, ReadU32, At;
    FixedRead(d, p, r);
  }

  /** One printed record at the front: what it adds to the report. */
  lemma FrontRecord(d: seq<byte>, pos: nat, end: nat, r: Record, name: seq<byte>, want: nat, visits: nat)
    requires r.Valid() && At(d, pos, r.Print()) && pos + |r.Print()| <= end && want > 0 && visits > 0
    ensures var next := pos + |r.Print()|;
      Answers(Memory(d), pos, end, name, want, visits) ==
        if r.IsAddress() then [Answer(name, r.ttl, r.data)] + Answers(Memory(d), next, end, name, want - 1, visits - 1)
        else Answers(Memory(d), next, end, name, want, visits - 1)
  {
    hide Record.Print, Owner.Print, Record.Fixed, ReadRecord, Answers, ReadAddress;
    RecordAt(d, pos, r);
    OwnerRead(d, pos, end, r.owner);
    RecordReadBack(d, pos, end, r, pos + |r.owner.Print()|);
    AnswersStep(Memory(d), pos, end, name, want, visits);
  }

  lemma {:induction false} RecordsReadBack(
      d: seq<byte>, pos: nat, end: nat, rs: seq<Record>, name: seq<byte>, want: nat, visits: nat)
    requires forall r :: r in rs ==> r.Valid()
    requires At(d, pos, PrintRecords(rs)) && end == pos + |PrintRecords(rs)|
    ensures Answers(Memory(d), pos, end, name, want, visits) == Meaning(rs, name, want, visits)
    decreases |rs|
  {
    hide Record.Print, ReadRecord, Answers, At;
    AnswersStep(Memory(d), pos, end, name, want, visits);
    if rs == [] {
      NoRecordAtEnd(Memory(d), end);
    } else if want > 0 && visits > 0 {
      var r, rest := rs[0], rs[1..];
      assert r in rs;
      assert forall x :: x in rest ==> x in rs;
      AtSplit(d, pos, r.Print(), PrintRecords(rest));
      FrontRecord(d, pos, end, r, name, want, visits);
      RecordsReadBack(d, pos + |r.Print()|, end, rest, name, if r.IsAddress() then want - 1 else want, visits - 1);
    }
  }

  lemma NoRecordAtEnd(c: Cursor, end: nat)
    ensures ReadRecord(c, end, end).NoRecord?
  {
  }

  /** Where the parts of a printed message stand. */
  lemma HeaderAt(d: seq<byte>, pos: nat, m: Message)
    requires m.Valid() && At(d, pos, m.Header())
    ensures ReadU16(Memory(d), pos + 2) == Some(m.flags) && ReadU16(Memory(d), pos + 4) == Some(m.questions)
    ensures ReadU16(Memory(d), pos + 6) == Some(m.answers)
  {
    hide Be16, ReadU16, At;
    AtSplit(d, pos, m.id + Be16(m.flags) + Be16(m.questions) + Be16(m.answers), m.others);
    AtSplit(d, pos, m.id + Be16(m.flags) + Be16(m.questions), Be16(m.answers));
    AtSplit(d, pos, m.id + Be16(m.flags), Be16(m.questions));
    AtSplit(d, pos, m.id, Be16(m.flags));
    At16(d, pos + 2, m.flags);
    At16(d, pos + 4, m.questions);
    At16(d, pos + 6, m.answers);
  }

  lemma MessageAt(d: seq<byte>, pos: nat, m: Message)
    requires m.Valid() && At(d, pos, m.Print())
    ensures At(d, pos, m.Header()) && At(d, pos + 12, PrintLabels(m.question) + [0])
    ensures At(d, pos + 12 + |PrintLabels(m.question)| + 1 + 4, PrintRecords(m.records))
    ensures |m.Print()| == 12 + |PrintLabels(m.question)| + 1 + 4 + |PrintRecords(m.records)|
  {
    hide PrintLabels, PrintRecords, At, Message.Header;
    var header, name, records := m.Header(), PrintLabels(m.question) + [0], PrintRecords(m.records);
    assert m.Print() == header + name + m.qtype + records;
    AtSplit(d, pos, header + name + m.qtype, records);
    AtSplit(d, pos, header + name, m.qtype);
    AtSplit(d, pos, header, name);
  }

  /**
   * Round trip: for every message, wherever it stands, the parser reports the
   * A records among the first eight records, at most min(answers, 8) of them,
   * in order; and nothing when it is a query, counts no question or no answer,
   * or has a question name over 15 labels or 253 bytes.
   */
  lemma ParseInvertsPrint(d: seq<byte>, pos: nat, m: Message)
    requires m.Valid() && At(d, pos, m.Print())
    ensures DnsAnswers(Memory(d), pos, pos + |m.Print()|) ==
      if m.Readable()
      then Meaning(m.records, Dotted(m.question), Min(m.answers, MAX_DNS_ANSWERS), MAX_DNS_ANSWERS) else []
  {
    hide PrintLabels, PrintRecords, ReadU16, Answers, QuestionName, Dotted, Meaning, Message.Print, Message.Header, At;
    var c, end := Memory(d), pos + |m.Print()|;
    MessageAt(d, pos, m);
    HeaderAt(d, pos, m);
    QuestionNameReadIff(d, pos + 12, end, m.question);
    DottedNonEmpty(m.question);
    var body := pos + 12 + |PrintLabels(m.question)| + 1 + 4;
    RecordsReadBack(d, body, end, m.records, Dotted(m.question), Min(m.answers, MAX_DNS_ANSWERS), MAX_DNS_ANSWERS);
  }

  lemma {:induction false} RecordsReadOn(
      d: seq<byte>, pos: nat, end: nat, rs: seq<Record>, name: seq<byte>, want: nat, visits: nat)
    requires forall r :: r in rs ==> r.Valid()
    requires At(d, pos, PrintRecords(rs)) && pos + |PrintRecords(rs)| <= end
    ensures Meaning(rs, name, want, visits) <= Answers(Memory(d), pos, end, name, want, visits)
    decreases |rs|
  {
    hide Record.Print, ReadRecord, Answers, At;
    if rs != [] && want > 0 && visits > 0 {
      var r, rest := rs[0], rs[1..];
      assert r in rs;
      assert forall x :: x in rest ==> x in rs;
      AtSplit(d, pos, r.Print(), PrintRecords(rest));
      FrontRecord(d, pos, end, r, name, want, visits);
      RecordsReadOn(d, pos + |r.Print()|, end, rest, name, if r.IsAddress() then want - 1 else want, visits - 1);
    }
  }

  /** Whatever follows a printed message inside the window, what its records mean is reported first. */
  lemma PrintedIsReported(d: seq<byte>, pos: nat, end: nat, m: Message)
    requires m.Valid() && m.Readable() && At(d, pos, m.Print()) && pos + |m.Print()| <= end
    ensures Meaning(m.records, Dotted(m.question), Min(m.answers, MAX_DNS_ANSWERS), MAX_DNS_ANSWERS)
         <= DnsAnswers(Memory(d), pos, end)
  {
    hide PrintLabels, PrintRecords, ReadU16, Answers, QuestionName, Dotted, Meaning, Message.Print, Message.Header, At;
    MessageAt(d, pos, m);
    HeaderAt(d, pos, m);
    QuestionNameReadIff(d, pos + 12, end, m.question);
    DottedNonEmpty(m.question);
    var body := pos + 12 + |PrintLabels(m.question)| + 1 + 4;
    RecordsReadOn(d, body, end, m.records, Dotted(m.question), Min(m.answers, MAX_DNS_ANSWERS), MAX_DNS_ANSWERS);
  }

  // ------------------------------------------------- only printed messages

  lemma OneLabelStands(d: seq<byte>, pos: nat, len: byte)
    requires pos + 1 + len <= |d| && d[pos] == len
    ensures At(d, pos, [len] + d[pos + 1..pos + 1 + len])
  {
  }

  lemma FirstLabelAt(d: seq<byte>, pos: nat, len: byte, labels: Labels, tail: seq<byte>)
    requires 1 <= len <= 63 && pos + 1 + len <= |d| && d[pos] == len
    requires ValidLabels(labels) && At(d, pos + 1 + len, PrintLabels(labels) + tail)
    ensures var more := [d[pos + 1..pos + 1 + len]] + labels;
      && ValidLabels(more) && At(d, pos, PrintLabels(more) + tail)
      && |PrintLabels(more)| == 1 + len + |PrintLabels(labels)|
  {
    hide PrintLabels, At;
    var l := d[pos + 1..pos + 1 + len];
    OneLabelStands(d, pos, len);
    var more := [l] + labels;
    assert more[0] == l && more[1..] == labels;
    assert forall x :: x in more ==> x == l || x in labels;
    PrintLabelsUnfolds(more);
    AtJoin(d, pos, [len] + l, PrintLabels(labels) + tail);
    assert PrintLabels(more) + tail == ([len] + l) + (PrintLabels(labels) + tail);
  }

  lemma NothingPrinted()
    ensures ValidLabels([]) && PrintLabels([]) == []
  {
  }

  lemma FirstOfName(d: seq<byte>, pos: nat, end: nat, budget: nat)
    requires WireName(Memory(d), pos, end, budget).Name?
    ensures budget > 0 && ReadU8(Memory(d), pos).Some? && pos < end
    ensures var w, len := WireName(Memory(d), pos, end, budget), ReadU8(Memory(d), pos).value;
      if len == 0 then w == Name([], pos + 1) && At(d, pos, [0])
      else
        && len <= 63 && pos + 1 + len <= |d| && d[pos] == len
        && var rest := WireName(Memory(d), pos + 1 + len, end, budget - 1);
           rest.Name? && w == Name([d[pos + 1..pos + 1 + len]] + rest.labels, rest.next)
  {
  }

  /** A name that is read stands there in print. */
  lemma {:induction false} NameIsPrinted(d: seq<byte>, pos: nat, end: nat, budget: nat)
    requires WireName(Memory(d), pos, end, budget).Name?
    ensures var w := WireName(Memory(d), pos, end, budget);
      && ValidLabels(w.labels) && |w.labels| < budget
      && At(d, pos, PrintLabels(w.labels) + [0]) && w.next == pos + |PrintLabels(w.labels)| + 1
    decreases end - pos
  {
    hide PrintLabels, WireName, At, ReadU8;
    FirstOfName(d, pos, end, budget);
    var len := ReadU8(Memory(d), pos).value;
    NothingPrinted();
    if len > 0 {
      NameIsPrinted(d, pos + 1 + len, end, budget - 1);
      FirstLabelAt(d, pos, len, WireName(Memory(d), pos + 1 + len, end, budget - 1).labels, [0]);
    } else {
      assert [] + [0] == [0 as byte];
    }
  }

  lemma FirstOfOwner(d: seq<byte>, pos: nat, end: nat, budget: nat)
    requires OwnerEnd(Memory(d), pos, end, budget).Some?
    ensures budget > 0 && pos < end && pos < |d| && ReadU8(Memory(d), pos) == Some(d[pos])
    ensures var r, len := OwnerEnd(Memory(d), pos, end, budget), d[pos];
      if len == 0 then r == Some(pos + 1)
      else if len >= 0xC0 then r == Some(pos + 2)
      else len <= 63 && r == OwnerEnd(Memory(d), pos + 1 + len, end, budget - 1)
  {
  }

  /** An owner name that is skipped within the capture stands there in print. */
  lemma {:induction false} OwnerIsPrinted(d: seq<byte>, pos: nat, end: nat, budget: nat) returns (o: Owner)
    requires budget <= MAX_DNS_LABELS && OwnerEnd(Memory(d), pos, end, budget).Some?
    requires OwnerEnd(Memory(d), pos, end, budget).value <= |d|
    ensures o.Valid() && |o.labels| < budget && At(d, pos, o.Print())
    ensures OwnerEnd(Memory(d), pos, end, budget) == Some(pos + |o.Print()|)
    decreases end - pos
  {
    hide PrintLabels, OwnerEnd, ReadU8;
    FirstOfOwner(d, pos, end, budget);
    var len := ReadU8(Memory(d), pos).value;
    NothingPrinted();
    if len == 0 {
      o := Owner([], None);
      assert o.Print() == [0];
    } else if len >= 0xC0 {
      o := Owner([], Some((d[pos], d[pos + 1])));
      assert o.Print() == [d[pos], d[pos + 1]];
    } else {
      var rest := OwnerIsPrinted(d, pos + 1 + len, end, budget - 1);
      var tail := if rest.pointer.Some? then [rest.pointer.value.0, rest.pointer.value.1] else [0];
      FirstLabelAt(d, pos, len, rest.labels, tail);
      o := rest.(labels := [d[pos + 1..pos + 1 + len]] + rest.labels);
    }
  }

  /** A record that is read within the capture stands there in print. */
  lemma RecordIsPrinted(d: seq<byte>, pos: nat, end: nat) returns (r: Record)
    requires var h := ReadRecord(Memory(d), pos, end); h.Head? && h.data + h.rdlength <= |d|
    ensures var h := ReadRecord(Memory(d), pos, end);
      && r.Valid() && At(d, pos, r.Print()) && pos + |r.Print()| == h.data + h.rdlength
      && r.IsAddress() == IsA(h) && r.ttl == h.ttl && r.data == d[h.data..h.data + h.rdlength]
  {
    hide ReadU16, ReadU32, At, Be16, Be32, Owner.Print, OwnerEnd;
    var h := ReadRecord(Memory(d), pos, end);
    var p := h.data - 10;
    var o := OwnerIsPrinted(d, pos, end, MAX_DNS_LABELS);
    r := Record(o, h.rtype, h.rclass, h.ttl, d[h.data..h.data + h.rdlength]);
    FixedIsPrinted(d, p, r);
    assert At(d, h.data, r.data) by { DataAt(d, h.data, h.rdlength); }
    AtJoin(d, pos, o.Print(), r.Fixed());
    AtJoin(d, pos, o.Print() + r.Fixed(), r.data);
  }

  lemma DataAt(d: seq<byte>, pos: nat, n: nat)
    requires pos + n <= |d|
    ensures At(d, pos, d[pos..pos + n])
  {
  }

  lemma FixedIsPrinted(d: seq<byte>, p: nat, r: Record)
    requires r.Valid()
    requires ReadU16(Memory(d), p) == Some(r.rtype) && ReadU16(Memory(d), p + 2) == Some(r.rclass)
    requires ReadU32(Memory(d), p + 4) == Some(r.ttl) && ReadU16(Memory(d), p + 8) == Some(|r.data|)
    ensures At(d, p, r.Fixed()) && |r.Fixed()| == 10
  {
    hide ReadU16, ReadU32, At, Be16, Be32;
    Read16At(d, p, r.rtype);
    Read16At(d, p + 2, r.rclass);
    Read32At(d, p + 4, r.ttl);
    Read16At(d, p + 8, |r.data|);
    AtJoin(d, p, Be16(r.rtype), Be16(r.rclass));
    AtJoin(d, p, Be16(r.rtype) + Be16(r.rclass), Be32(r.ttl));
    AtJoin(d, p, Be16(r.rtype) + Be16(r.rclass) + Be32(r.ttl), Be16(|r.data|));
  }

  /** Reported addresses are what printed records mean. */
  lemma {:induction false} AnswersArePrinted(
      d: seq<byte>, pos: nat, end: nat, name: seq<byte>, want: nat, visits: nat) returns (rs: seq<Record>)
    requires Answers(Memory(d), pos, end, name, want, visits) != []
    ensures (forall r :: r in rs ==> r.Valid()) && rs != []
    ensures At(d, pos, PrintRecords(rs)) && pos + |PrintRecords(rs)| <= end
    ensures Meaning(rs, name, want, visits) == Answers(Memory(d), pos, end, name, want, visits)
    decreases end - pos
  {
    hide ReadRecord, At, Record.Print, ReadU8;
    var c, h := Memory(d), ReadRecord(Memory(d), pos, end);
    var next := h.data + h.rdlength;
    rs := [];
    var rest := if IsA(h) then Answers(c, h.data + 4, end, name, want - 1, visits - 1)
                else Answers(c, next, end, name, want, visits - 1);
    if rest != [] {
      rs := AnswersArePrinted(d, next, end, name, if IsA(h) then want - 1 else want, visits - 1);
      PrintedIsCaptured(d, next, PrintRecords(rs));
    } else {
      AddressIsCaptured(d, h.data);
      PrintNothing(d, next);
    }
    var r := RecordIsPrinted(d, pos, end);
    AddressIs(d, h.data);
    AtJoin(d, pos, r.Print(), PrintRecords(rs));
    var all := [r] + rs;
    assert all[0] == r && all[1..] == rs;
    assert forall x :: x in all ==> x == r || x in rs;
    assert rest == [] ==> Meaning(rs, name, want - 1, visits - 1) == [];
    rs := all;
  }

  lemma PrintedIsCaptured(d: seq<byte>, pos: nat, s: seq<byte>)
    requires At(d, pos, s)
    ensures pos <= |d|
  {
  }

  lemma PrintNothing(d: seq<byte>, pos: nat)
    requires pos <= |d|
    ensures PrintRecords([]) == [] && At(d, pos, [])
  {
  }

  lemma AddressIsCaptured(d: seq<byte>, pos: nat)
    requires ReadAddress(Memory(d), pos).Some?
    ensures pos + 4 <= |d|
  {
  }

  lemma AddressIs(d: seq<byte>, pos: nat)
    ensures ReadAddress(Memory(d), pos).Some? ==> pos + 4 <= |d| && ReadAddress(Memory(d), pos).value == d[pos..pos + 4]
  {
  }

  lemma HeaderIsPrinted(d: seq<byte>, pos: nat, m: Message)
    requires m.Valid() && pos + 12 <= |d| && m.id == d[pos..pos + 2] && m.others == d[pos + 8..pos + 12]
    requires ReadU16(Memory(d), pos + 2) == Some(m.flags) && ReadU16(Memory(d), pos + 4) == Some(m.questions)
    requires ReadU16(Memory(d), pos + 6) == Some(m.answers)
    ensures At(d, pos, m.Header())
  {
    hide ReadU16, At, Be16;
    Read16At(d, pos + 2, m.flags);
    Read16At(d, pos + 4, m.questions);
    Read16At(d, pos + 6, m.answers);
    DataAt(d, pos, 2);
    DataAt(d, pos + 8, 4);
    AtJoin(d, pos, m.id, Be16(m.flags));
    AtJoin(d, pos, m.id + Be16(m.flags), Be16(m.questions));
    AtJoin(d, pos, m.id + Be16(m.flags) + Be16(m.questions), Be16(m.answers));
    AtJoin(d, pos, m.id + Be16(m.flags) + Be16(m.questions) + Be16(m.answers), m.others);
  }

  /**
   * Nothing is reported but what a printed message means: if any address is, a
   * response stands at the start of the window and inside it, and the report is
   * what its records mean.
   */
  lemma ReportedIsPrinted(d: seq<byte>, pos: nat, end: nat) returns (m: Message)
    requires DnsAnswers(Memory(d), pos, end) != []
    ensures m.Valid() && m.Readable() && At(d, pos, m.Print()) && pos + |m.Print()| <= end
    ensures DnsAnswers(Memory(d), pos, end)
         == Meaning(m.records, Dotted(m.question), Min(m.answers, MAX_DNS_ANSWERS), MAX_DNS_ANSWERS)
  {
    hide ReadU16, Answers, WireName, Dotted, Meaning, PrintLabels, PrintRecords, At, Message.Header;
    var c := Memory(d);
    var flags, questions, answers := ReadU16(c, pos + 2).value, ReadU16(c, pos + 4).value, ReadU16(c, pos + 6).value;
    var w := WireName(c, pos + 12, end, MAX_DNS_LABELS);
    NameIsPrinted(d, pos + 12, end, MAX_DNS_LABELS);
    var name := Dotted(w.labels);
    var rs := AnswersArePrinted(d, w.next + 4, end, name, Min(answers, MAX_DNS_ANSWERS), MAX_DNS_ANSWERS);
    PrintedIsCaptured(d, w.next + 4, PrintRecords(rs));
    m := Message(d[pos..pos + 2], flags, questions, answers, d[pos + 8..pos + 12], w.labels, d[w.next..w.next + 4], rs);
    HeaderIsPrinted(d, pos, m);
    DataAt(d, w.next, 4);
    DottedNonEmpty(w.labels);
    MessageJoins(d, pos, m);
  }

  lemma MessageJoins(d: seq<byte>, pos: nat, m: Message)
    requires m.Valid() && At(d, pos, m.Header()) && At(d, pos + 12, PrintLabels(m.question) + [0])
    requires At(d, pos + 12 + |PrintLabels(m.question)| + 1, m.qtype)
    requires At(d, pos + 12 + |PrintLabels(m.question)| + 1 + 4, PrintRecords(m.records))
    ensures At(d, pos, m.Print())
    ensures |m.Print()| == 12 + |PrintLabels(m.question)| + 1 + 4 + |PrintRecords(m.records)|
  {
    hide PrintLabels, PrintRecords, At, Message.Header;
    var name := PrintLabels(m.question) + [0];
    AtJoin(d, pos, m.Header(), name);
    AtJoin(d, pos, m.Header() + name, m.qtype);
    AtJoin(d, pos, m.Header() + name + m.qtype, PrintRecords(m.records));
    assert m.Header() + name == m.Header() + PrintLabels(m.question) + [0];
  }

  lemma {:induction false} MeaningOfAddresses(rs: seq<Record>, name: seq<byte>, want: nat, visits: nat)
    requires forall i :: 0 <= i < |rs| ==> rs[i].IsAddress()
    requires want <= visits
    ensures var all := Meaning(rs, name, want, visits);
      && |all| == Min(|rs|, want)
      && forall i :: 0 <= i < |all| ==> all[i] == Answer(name, rs[i].ttl, rs[i].data)
  {
    if rs != [] && want > 0 {
      MeaningOfAddresses(rs[1..], name, want - 1, visits - 1);
    }
  }

  /**
   * A message of A records alone: the parser reports the first min(n, 8) of them
   * under the question name, and no other.
   */
  lemma AllAddresses(d: seq<byte>, pos: nat, m: Message)
    requires m.Valid() && m.Readable() && At(d, pos, m.Print())
    requires m.answers == |m.records| && forall i :: 0 <= i < |m.records| ==> m.records[i].IsAddress()
    ensures var all := DnsAnswers(Memory(d), pos, pos + |m.Print()|);
      && |all| == Min(|m.records|, MAX_DNS_ANSWERS)
      && forall i :: 0 <= i < |all| ==> all[i] == Answer(Dotted(m.question), m.records[i].ttl, m.records[i].data)
  {
    hide DnsAnswers, Meaning, Message.Print, At, Dotted;
    ParseInvertsPrint(d, pos, m);
    MeaningOfAddresses(m.records, Dotted(m.question), Min(m.answers, MAX_DNS_ANSWERS), MAX_DNS_ANSWERS);
  }

  function Addresses(rs: seq<Record>): nat {
    if rs == [] then 0 else (if rs[0].IsAddress() then 1 else 0) + Addresses(rs[1..])
  }

  lemma AddressesBounded(rs: seq<Record>)
    ensures Addresses(rs) <= |rs|
    ensures Addresses(rs) == |rs| <==> forall i :: 0 <= i < |rs| ==> rs[i].IsAddress()
  {
  }

  lemma {:induction false} MeaningEmptyIff(rs: seq<Record>, name: seq<byte>, want: nat, visits: nat)
    ensures Meaning(rs, name, want, visits) == []
       <==> want == 0 || forall i :: 0 <= i < |rs| && i < visits ==> !rs[i].IsAddress()
  {
    if rs != [] && want > 0 && visits > 0 {
      MeaningEmptyIff(rs[1..], name, want, visits - 1);
      assert forall i :: 0 < i < |rs| ==> rs[i] == rs[1..][i - 1];
    }
  }

  lemma {:induction false} MeaningSplits(a: seq<Record>, b: seq<Record>, name: seq<byte>, want: nat, visits: nat)
    requires |a| <= visits && Addresses(a) <= want
    ensures Meaning(a + b, name, want, visits)
         == Meaning(a, name, want, visits) + Meaning(b, name, want - Addresses(a), visits - |a|)
  {
    if a == [] {
      assert a + b == b;
    } else if want > 0 {
      assert (a + b)[1..] == a[1..] + b;
      MeaningSplits(a[1..], b, name, if a[0].IsAddress() then want - 1 else want, visits - 1);
    }
  }

  lemma {:induction false} MeaningIgnoresLater(a: seq<Record>, b: seq<Record>, name: seq<byte>, want: nat, visits: nat)
    requires visits <= |a|
    ensures Meaning(a + b, name, want, visits) == Meaning(a, name, want, visits)
  {
    if visits > 0 && want > 0 {
      assert (a + b)[1..] == a[1..] + b;
      MeaningIgnoresLater(a[1..], b, name, if a[0].IsAddress() then want - 1 else want, visits - 1);
    }
  }

  /** No address of the later records counts: the first eight hold none, or the section leaves no room for one. */
  predicate LaterIgnored(section: seq<Record>, later: seq<Record>) {
    || |section| >= MAX_DNS_ANSWERS
    || (forall i :: 0 <= i < |section| ==> section[i].IsAddress())
    || (forall i :: 0 <= i < |later| && |section| + i < MAX_DNS_ANSWERS ==> !later[i].IsAddress())
  }

  lemma MeaningOfSectionIff(section: seq<Record>, later: seq<Record>, name: seq<byte>)
    ensures var want := Min(|section|, MAX_DNS_ANSWERS);
      Meaning(section + later, name, want, MAX_DNS_ANSWERS) == Meaning(section, name, want, MAX_DNS_ANSWERS)
      <==> LaterIgnored(section, later)
  {
    hide Meaning, Addresses;
    if |section| >= MAX_DNS_ANSWERS {
      MeaningIgnoresLater(section, later, name, MAX_DNS_ANSWERS, MAX_DNS_ANSWERS);
    } else {
      AddressesBounded(section);
      MeaningSplits(section, later, name, |section|, MAX_DNS_ANSWERS);
      MeaningEmptyIff(later, name, |section| - Addresses(section), MAX_DNS_ANSWERS - |section|);
    }
  }

  /**
   * The answer count bounds reported addresses, not visited records. A message
   * is read as it would be without its later sections exactly when its name is
   * not read at all, or its answer section has eight records, or holds A records
   * alone, or no A record follows it among the first eight.
   */
  lemma OnlyAnswerSectionIff(d: seq<byte>, pos: nat, e: seq<byte>, at: nat, m: Message)
    requires m.Valid() && m.answers <= |m.records|
    requires At(d, pos, m.Print()) && At(e, at, m.AnswersOnly().Print())
    ensures DnsAnswers(Memory(d), pos, pos + |m.Print()|) == DnsAnswers(Memory(e), at, at + |m.AnswersOnly().Print()|)
      <==> !m.Readable() || LaterIgnored(m.records[..m.answers], m.records[m.answers..])
  {
    hide DnsAnswers, Meaning, Message.Print, At, Dotted, LaterIgnored;
    ParseInvertsPrint(d, pos, m);
    ParseInvertsPrint(e, at, m.AnswersOnly());
    assert m.records == m.records[..m.answers] + m.records[m.answers..];
    MeaningOfSectionIff(m.records[..m.answers], m.records[m.answers..], Dotted(m.question));
  }

  /** A response whose one answer is a CNAME record, with an A record in a later section. */
  const CNAME_THEN_A := Message(
    [0, 0], 0x8000, 1, 1, [0, 0, 0, 1], [[0x61]], [0, 1, 0, 1],
    [Record(Owner([], None), 5, 1, 60, [0]), Record(Owner([], None), 1, 1, 60, [10, 0, 0, 1])])

  /** Its later section is reported. */
  lemma LaterSectionReported()
    ensures CNAME_THEN_A.Valid()
    ensures DnsAnswers(Memory(CNAME_THEN_A.Print()), 0, |CNAME_THEN_A.Print()|) == [Answer([0x61], 60, [10, 0, 0, 1])]
  {
    hide DnsAnswers, Message.Print;
    var m := CNAME_THEN_A;
    assert forall l :: l in m.question ==> l == [0x61];
    var d := m.Print();
    WholeAt(d);
    assert Dotted([[0x61]]) == [0x61] by { OneLabel([0x61]); }
    ParseInvertsPrint(d, 0, m);
    assert m.records[1..][1..] == [];
    assert Meaning(m.records, [0x61], 1, 8) == Meaning(m.records[1..], [0x61], 1, 7);
    assert Meaning(m.records[1..], [0x61], 1, 7) == [Answer([0x61], 60, [10, 0, 0, 1])] + Meaning([], [0x61], 0, 6);
  }

  lemma OneLabel(l: seq<byte>)
    ensures Dotted([l]) == l
  {
  }
}
