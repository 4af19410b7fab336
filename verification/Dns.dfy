// DNS names and the minimal A answer of the interception responder (sections 4.1.2 to 4.1.4 of
// RFC 1035).
module Dns {
  import opened Bytes

  const HEADER: nat := 12

  // A parsed name and the offset after it.
  datatype Parsed = Parsed(name: seq<byte>, end: nat)

  const DOT: byte := 0x2E

  // b".".join(labels)
  function Join(labels: seq<seq<byte>>): seq<byte> {
    if labels == [] then [] else if |labels| == 1 then labels[0] else labels[0] + [DOT] + Join(labels[1..])
  }

  // data[from:to], cut at the end as Python slices are.
  function Slice(data: seq<byte>, from: nat, to: nat): seq<byte>
    requires from <= |data| && from <= to
  {
    if to <= |data| then data[from..to] else data[from..]
  }

  lemma {:induction false} SliceMeans(data: seq<byte>, from: nat, to: nat)
    requires from <= |data| && from <= to
    ensures |Slice(data, from, to)| == (if to <= |data| then to else |data|) - from
    ensures forall i :: 0 <= i < |Slice(data, from, to)| ==> Slice(data, from, to)[i] == data[from + i]
  {
  }

  // The loop of parse_dns_name with the labels found so far.  depth is how many more nested
  // calls the interpreter allows; None: that limit is exceeded.
  function ParseLoop(data: seq<byte>, offset: nat, labels: seq<seq<byte>>, depth: nat): Option<Parsed>
    decreases depth, |data| - offset
  {
    if offset >= |data| then Some(Parsed(Join(labels), offset))
    else
      var length := data[offset];
      if length == 0 then Some(Parsed(Join(labels), offset + 1))
      else if length >= 0xC0 then
        if offset + 1 >= |data| then Some(Parsed(Join(labels), offset))
        else if depth == 0 then None
        else
          var ptr: nat := 0x100 * (length as int - 0xC0) + data[offset + 1];
          match ParseLoop(data, ptr, [], depth - 1)
          case None => None
          case Some(suffix) => Some(Parsed(Join(labels + [suffix.name]), offset + 2))
      else
        ParseLoop(data, offset + 1 + length, labels + [Slice(data, offset + 1, offset + 1 + length)], depth)
  }

  // parse_dns_name
  method ParseDnsName(data: seq<byte>, start: nat, depth: nat) returns (r: Option<Parsed>)
    ensures r == ParseLoop(data, start, [], depth)
    decreases depth
  {
    hide Join, Slice;
    var offset, labels := start, [];
    while offset < |data|
      invariant ParseLoop(data, offset, labels, depth) == ParseLoop(data, start, [], depth)
      decreases |data| - offset
    {
      var length := data[offset];
      if length == 0 { return Some(Parsed(Join(labels), offset + 1)); }
      if length >= 0xC0 {
        if offset + 1 >= |data| { return Some(Parsed(Join(labels), offset)); }
        if depth == 0 { return None; }
        var ptr: nat := 0x100 * (length as int - 0xC0) + data[offset + 1];
        var suffix := ParseDnsName(data, ptr, depth - 1);
        if suffix.None? { return None; }
        return Some(Parsed(Join(labels + [suffix.value.name]), offset + 2));
      }
      labels := labels + [Slice(data, offset + 1, offset + 1 + length)];
      offset := offset + 1 + length;
    }
    return Some(Parsed(Join(labels), offset));
  }

  // The independent scan of build_dns_response: the offset of the name's final zero, or one at
  // or past the end of the data.
  function Scan(data: seq<byte>, offset: nat): (r: nat)
    ensures r >= offset
    ensures r < |data| ==> data[r] == 0
    decreases |data| - offset
  {
    if offset < |data| && data[offset] != 0 then Scan(data, offset + 1 + data[offset]) else offset
  }

  // ---------------------------------------------------------------- names on the wire

  // The code reads a length byte below 0xC0 as a label; RFC 1035 allows 1 to 63.
  predicate Labels(labels: seq<seq<byte>>) {
    forall i :: 0 <= i < |labels| ==> 1 <= |labels[i]| < 0xC0
  }

  function Wire(labels: seq<seq<byte>>): seq<byte>
    requires Labels(labels)
  {
    if labels == [] then [0] else [|labels[0]|] + labels[0] + Wire(labels[1..])
  }

  // data holds the encoding of the labels at offset.
  predicate HoldsAt(data: seq<byte>, offset: nat, labels: seq<seq<byte>>)
    requires Labels(labels)
  {
    offset + |Wire(labels)| <= |data| && data[offset..offset + |Wire(labels)|] == Wire(labels)
  }

  lemma {:induction false} SliceOfSlice(data: seq<byte>, from: nat, len: nat, a: nat, b: nat)
    requires from + len <= |data| && a <= b <= len
    ensures data[from..from + len][a..b] == data[from + a..from + b]
  {
    var d := data[from..from + len];
    assert forall i :: 0 <= i < b - a ==> d[a..b][i] == data[from + a + i];
  }

  lemma {:induction false} HoldsRest(data: seq<byte>, offset: nat, labels: seq<seq<byte>>)
    requires Labels(labels) && HoldsAt(data, offset, labels) && labels != []
    ensures data[offset] == |labels[0]|
    ensures data[offset + 1..offset + 1 + |labels[0]|] == labels[0]
    ensures HoldsAt(data, offset + 1 + |labels[0]|, labels[1..])
    ensures |Wire(labels)| == 1 + |labels[0]| + |Wire(labels[1..])|
  {
    var w, n := Wire(labels), |labels[0]|;
    var d := data[offset..offset + |w|];
    assert w[0] == n && w[1..n + 1] == labels[0] && w[n + 1..] == Wire(labels[1..]);
    assert data[offset] == d[0];
    SliceOfSlice(data, offset, |w|, 1, n + 1);
    SliceOfSlice(data, offset, |w|, n + 1, |w|);
  }

  // An uncompressed name parses to its labels and ends after its final zero.
  lemma {:induction false} ParseReadsWire(data: seq<byte>, offset: nat, before: seq<seq<byte>>, labels: seq<seq<byte>>,
                           depth: nat)
    requires Labels(labels) && HoldsAt(data, offset, labels)
    ensures ParseLoop(data, offset, before, depth) == Some(Parsed(Join(before + labels), offset + |Wire(labels)|))
    decreases |labels|
  {
    if labels == [] {
      assert data[offset] == data[offset..offset + 1][0];
      assert before + labels == before;
    } else {
      HoldsRest(data, offset, labels);
      var next := offset + 1 + |labels[0]|;
      ParseReadsWire(data, next, before + [labels[0]], labels[1..], depth);
      assert before + [labels[0]] + labels[1..] == before + labels;
      assert Slice(data, offset + 1, next) == labels[0];
    }
  }

  lemma {:induction false} ScanReadsWire(data: seq<byte>, offset: nat, labels: seq<seq<byte>>)
    requires Labels(labels) && HoldsAt(data, offset, labels)
    ensures Scan(data, offset) + 1 == offset + |Wire(labels)|
    decreases |labels|
  {
    if labels == [] {
      assert data[offset] == data[offset..offset + 1][0];
    } else {
      HoldsRest(data, offset, labels);
      ScanReadsWire(data, offset + 1 + |labels[0]|, labels[1..]);
    }
  }

  // No compression pointer on the way through the name.
  predicate Uncompressed(data: seq<byte>, offset: nat)
    decreases |data| - offset
  {
    offset >= |data| || data[offset] == 0
    || (data[offset] < 0xC0 && Uncompressed(data, offset + 1 + data[offset]))
  }

  // Parser and scan take the same steps on any uncompressed name, well-formed or not.  They
  // agree about its end exactly when its final zero is there; without it the scan still counts
  // one byte for it.
  lemma {:induction false} ScanAgreesWithParse(data: seq<byte>, offset: nat, before: seq<seq<byte>>, depth: nat)
    requires Uncompressed(data, offset)
    ensures ParseLoop(data, offset, before, depth).Some?
    ensures ParseLoop(data, offset, before, depth).value.end
            == Scan(data, offset) + if Scan(data, offset) < |data| then 1 else 0
    decreases |data| - offset
  {
    hide Join;
    if offset < |data| && data[offset] != 0 {
      var next := offset + 1 + data[offset];
      ScanAgreesWithParse(data, next, before + [Slice(data, offset + 1, next)], depth);
    }
  }

  // ---------------------------------------------------------------- the answer

  // QR=1, RD=1, RA=1, one question, one answer.
  const FLAGS: seq<byte> := [0x81, 0x80, 0, 1, 0, 1, 0, 0, 0, 0]

  // Pointer to offset 12, type A, class IN, TTL 60, RDLENGTH 4.
  const ANSWER: seq<byte> := [0xC0, 0x0C, 0, 1, 0, 1, 0, 0, 0, 60, 0, 4]

  function Response(query: seq<byte>, ip: seq<byte>): seq<byte> {
    if |query| < HEADER then query
    else query[..2] + FLAGS + Slice(query, HEADER, Scan(query, HEADER) + 5) + ANSWER + ip
  }

  // build_dns_response; ip is the packed address.
  method BuildDnsResponse(query: seq<byte>, ip: seq<byte>) returns (r: seq<byte>)
    ensures r == Response(query, ip)
    ensures |query| < 12 ==> r == query
  {
    if |query| < 12 { return query; }
    var end := 12;
    while end < |query| && query[end] != 0
      invariant 12 <= end && Scan(query, end) == Scan(query, 12)
      decreases |query| - end
    {
      end := end + 1 + query[end];
    }
    end := end + 1 + 4;
    r := query[..2] + FLAGS + Slice(query, 12, end) + ANSWER + ip;
  }

  // A question: header, an uncompressed name, QTYPE and QCLASS, and whatever follows.
  predicate Asks(query: seq<byte>, labels: seq<seq<byte>>)
    requires Labels(labels)
  {
    HoldsAt(query, HEADER, labels) && HEADER + |Wire(labels)| + 4 <= |query|
  }

  // Where the answer of the response starts.
  function AnswerAt(labels: seq<seq<byte>>): nat
    requires Labels(labels)
  {
    HEADER + |Wire(labels)| + 4
  }

  lemma {:induction false} ResponseParts(query: seq<byte>, labels: seq<seq<byte>>, ip: seq<byte>)
    requires Labels(labels) && Asks(query, labels)
    ensures var r := Response(query, ip);
            && |r| == AnswerAt(labels) + 12 + |ip| && r[..2] == query[..2]
            && r[HEADER..AnswerAt(labels)] == query[HEADER..AnswerAt(labels)]
            && r[AnswerAt(labels)..AnswerAt(labels) + 12] == ANSWER
            && r[AnswerAt(labels) + 12..] == ip
  {
    hide Scan, Wire;
    ScanReadsWire(query, HEADER, labels);
    var r, n := Response(query, ip), AnswerAt(labels);
    var head, question := query[..2] + FLAGS, query[HEADER..n];
    assert r == head + question + ANSWER + ip;
    assert r[HEADER..n] == question && r[n..n + 12] == ANSWER && r[n + 12..] == ip;
  }

  lemma {:induction false} ResponseHoldsName(query: seq<byte>, labels: seq<seq<byte>>, ip: seq<byte>)
    requires Labels(labels) && Asks(query, labels)
    ensures HoldsAt(Response(query, ip), HEADER, labels)
  {
    ResponseParts(query, labels, ip);
    hide Response, Wire;
    var r, n, m := Response(query, ip), AnswerAt(labels), HEADER + |Wire(labels)|;
    assert r[HEADER..m] == r[HEADER..n][..m - HEADER] && query[HEADER..m] == query[HEADER..n][..m - HEADER];
  }

  // The name in the question, the end that the response builder finds, and the name that the
  // answer points back to all agree; the answer carries the address.
  lemma {:induction false} AnswerAgreesWithQuestion(query: seq<byte>, labels: seq<seq<byte>>, ip: seq<byte>, depth: nat)
    requires Labels(labels) && Asks(query, labels) && depth > 0
    ensures var r, n := Response(query, ip), AnswerAt(labels);
            && ParseLoop(query, HEADER, [], depth) == Some(Parsed(Join(labels), n - 4))
            && Scan(query, HEADER) + 5 == n
            && ParseLoop(r, HEADER, [], depth) == Some(Parsed(Join(labels), n - 4))
            && |r| == n + 12 + |ip|
            && ParseLoop(r, n, [], depth) == Some(Parsed(Join(labels), n + 2))
            && r[..2] == query[..2] && r[n + 12..] == ip
  {
    hide Scan, Wire, Join, Response;
    var r, n := Response(query, ip), AnswerAt(labels);
    ResponseParts(query, labels, ip);
    ResponseHoldsName(query, labels, ip);
    assert [] + labels == labels;
    ParseReadsWire(query, HEADER, [], labels, depth);
    ScanReadsWire(query, HEADER, labels);
    ParseReadsWire(r, HEADER, [], labels, depth);
    ParseReadsWire(r, HEADER, [], labels, depth - 1);
    assert r[n] == r[n..n + 12][0] && r[n + 1] == r[n..n + 12][1];
    PointerParses(r, n, HEADER, depth);
  }

  // A pointer stands for the name at the offset in its 14 low bits.
  lemma {:induction false} PointerParses(data: seq<byte>, n: nat, ptr: nat, depth: nat)
    requires n + 2 <= |data| && depth > 0 && ptr < 0x4000 && Be16(data, n) == 0xC000 + ptr
    ensures ParseLoop(data, ptr, [], depth - 1).None? ==> ParseLoop(data, n, [], depth).None?
    ensures ParseLoop(data, ptr, [], depth - 1).Some? ==>
              ParseLoop(data, n, [], depth) == Some(Parsed(ParseLoop(data, ptr, [], depth - 1).value.name, n + 2))
  {
    assert data[n] >= 0xC0 && ptr == 0x100 * (data[n] as int - 0xC0) + data[n + 1];
    var inner := ParseLoop(data, ptr, [], depth - 1);
    if inner.Some? {
      assert [] + [inner.value.name] == [inner.value.name];
      assert Join([inner.value.name]) == inner.value.name;
    }
  }

  // Two bytes in network order.
  function Be16(data: seq<byte>, at: nat): nat
    requires at + 2 <= |data|
  {
    0x100 * (data[at] as int) + data[at + 1]
  }

  // The header and the answer in the terms of RFC 1035: a response without error to one question,
  // with one answer, of type A (1) and class IN (1), for 60 seconds, 4 bytes long.
  lemma {:induction false} AnswerFields(query: seq<byte>, labels: seq<seq<byte>>, ip: seq<byte>)
    requires Labels(labels) && Asks(query, labels) && |ip| == 4
    ensures var r := Response(query, ip);
            && |r| >= 12 && r[2] >= 0x80 && (r[2] / 8) % 16 == 0 && r[3] % 16 == 0
            && Be16(r, 4) == 1 && Be16(r, 6) == 1 && Be16(r, 8) == 0 && Be16(r, 10) == 0
    ensures var r, n := Response(query, ip), AnswerAt(labels);
            && |r| == n + 12 + |ip| && Be16(r, n) == 0xC000 + 12 && Be16(r, n + 2) == 1 && Be16(r, n + 4) == 1
            && Be16(r, n + 6) * 0x1_0000 + Be16(r, n + 8) == 60 && Be16(r, n + 10) == |ip|
  {
    ResponseParts(query, labels, ip);
    var r, n := Response(query, ip), AnswerAt(labels);
    HeaderOf(query, ip);
    hide Response, Scan, Wire;
    var h, a := r[2..HEADER], r[n..n + 12];
    assert r[2] == h[0] && r[3] == h[1] && r[4] == h[2] && r[5] == h[3] && r[6] == h[4] && r[7] == h[5];
    assert r[8] == h[6] && r[9] == h[7] && r[10] == h[8] && r[11] == h[9];
    assert forall i :: 0 <= i < 12 ==> r[n + i] == a[i];
    assert r[n + 1] == a[1] && r[n + 2] == a[2] && r[n + 3] == a[3] && r[n + 4] == a[4] && r[n + 5] == a[5];
    assert r[n + 6] == a[6] && r[n + 7] == a[7] && r[n + 8] == a[8] && r[n + 9] == a[9];
    assert r[n + 10] == a[10] && r[n + 11] == a[11];
  }

  lemma {:induction false} HeaderOf(query: seq<byte>, ip: seq<byte>)
    requires |query| >= HEADER
    ensures |Response(query, ip)| >= HEADER && Response(query, ip)[2..HEADER] == FLAGS
  {
    hide Scan, Slice;
    var head := query[..2] + FLAGS;
    var question := Slice(query, HEADER, Scan(query, HEADER) + 5);
    assert head[2..HEADER] == FLAGS;
    KeepsHeader(head, question);
    KeepsHeader(head + question, ANSWER);
    KeepsHeader(head + question + ANSWER, ip);
  }

  lemma {:induction false} KeepsHeader(a: seq<byte>, b: seq<byte>)
    requires |a| >= HEADER
    ensures (a + b)[2..HEADER] == a[2..HEADER]
  {
  }

  // Labels are joined by dots.
  lemma {:induction false} DottedName()
    ensures Join([[0x77, 0x77, 0x77], [0x61], [0x63, 0x63]])
         == [0x77, 0x77, 0x77, '.' as int, 0x61, '.' as int, 0x63, 0x63]
  {
    assert [[0x77, 0x77, 0x77], [0x61], [0x63, 0x63]][1..] == [[0x61], [0x63, 0x63]];
    assert [[0x61], [0x63, 0x63]][1..] == [[0x63, 0x63]];
    assert Join([[0x61], [0x63, 0x63]]) == [0x61, DOT, 0x63, 0x63];
  }
}
