/**
 Reading a DNS reply: the cursor that skips the questions, walks the answers and takes the data of
 the first one of the type and class asked for.
 */
module DnsReply {
  import opened Basics
  import opened Options
  import opened DnsQueue
  import opened DnsWire

  /** The reply belongs to another lookup, or the lookup failed with a code, or these are its data. */
  datatype Outcome = NotOurs | Failed(code: int) | Data(bytes: seq<Byte>)

  // ---- The cursor ----

  /** Skip up to n questions of the payload p from i. */
  function SkipQuestions(p: seq<Byte>, n: nat, i: nat): nat
    decreases |p| - i
  {
    if n == 0 || i >= |p| then i
    else if p[i] > 63 then SkipQuestions(p, n - 1, i + 6)
    else if p[i] == 0 then SkipQuestions(p, n - 1, i + 5)
    else SkipQuestions(p, n, i + p[i] + 1)
  }

  /** Skip one name: labels up to the root or to a pointer. */
  function SkipName(p: seq<Byte>, i: nat): nat
    decreases |p| - i
  {
    if i >= |p| then i
    else if p[i] > 63 then i + 2
    else if p[i] == 0 then i + 1
    else SkipName(p, i + p[i] + 1)
  }

  /** The type, the class and the length of the data in the middle of a record, which starts at j. */
  function Fields(p: seq<Byte>, j: nat): (nat, nat, nat)
    requires j + 10 <= |p|
  {
    (Word(p[j], p[j + 1]), Word(p[j + 2], p[j + 3]), Word(p[j + 8], p[j + 9]))
  }

  /** The data of a record, if all of it is there and it fits the result. */
  function RecordData(p: seq<Byte>, i: nat, len: nat): Outcome {
    if i + len > |p| || len > 1023 then Failed(ERR_OTHER) else Data(p[i..i + len])
  }

  /** Walk n answers from i for one of this type and class. */
  function FindAnswer(p: seq<Byte>, n: nat, i: nat, kind: nat, cls: nat): Outcome
    decreases n
  {
    if n == 0 then Failed(ERR_OTHER)
    else
      match TryRecord(p, i, kind, cls)
      case Settled(o) => o
      case Onward(next) => FindAnswer(p, n - 1, next, kind, cls)
  }

  /** A record settles the outcome, or the walk goes on behind it. */
  datatype Tried = Settled(o: Outcome) | Onward(next: nat)

  function TryRecord(p: seq<Byte>, i: nat, kind: nat, cls: nat): Tried {
    var j := SkipName(p, i);
    if |p| - j < 10 then Settled(Failed(ERR_OTHER))
    else
      var (k, c, len) := Fields(p, j);
      if k != kind || c != cls then Onward(j + 10 + len) else Settled(RecordData(p, j + 10, len))
  }

  /** firedns_getresult for a query with these two id bytes, type and class: recv fails, or receives a datagram. */
  function Read(id0: Byte, id1: Byte, kind: nat, cls: nat, received: Option<seq<Byte>>): Outcome {
    if received.None? then Failed(ERR_NETWORK) else ReadDatagram(id0, id1, kind, cls, received.value)
  }

  function ReadDatagram(id0: Byte, id1: Byte, kind: nat, cls: nat, h: seq<Byte>): Outcome {
    if |h| < 12 then Failed(ERR_OTHER)
    else if h[0] != id0 || h[1] != id1 then NotOurs
    else if h[2] / 128 == 0 then Failed(ERR_OTHER)
    else if (h[2] / 8) % 16 != 0 then Failed(ERR_OTHER)
    else if h[3] % 16 != 0 then Failed(h[3] % 16)
    else if Word(h[6], h[7]) < 1 then Failed(ERR_NXDOMAIN)
    else
      var p := h[12..];
      FindAnswer(p, Word(h[6], h[7]), SkipQuestions(p, Word(h[4], h[5]), 0), kind, cls)
  }

  // ---- Well-formed replies ----

  /** The end of a name: the root, or a pointer to an earlier name (top two bits set). */
  datatype NameEnd = Root | Pointer(hi: Byte, lo: Byte)
  datatype Name = Name(labels: seq<seq<Byte>>, end: NameEnd)
  datatype Question = Question(name: Name, kind: nat, cls: nat)
  datatype Record = Record(name: Name, kind: nat, cls: nat, ttl: seq<Byte>, data: seq<Byte>)

  ghost predicate GoodName(n: Name) {
    && (forall i | 0 <= i < |n.labels| :: GoodLabel(n.labels[i]))
    && (n.end.Pointer? ==> n.end.hi >= 192)
  }

  ghost predicate GoodQuestion(q: Question) {
    GoodName(q.name) && q.kind < 65536 && q.cls < 65536
  }

  ghost predicate GoodRecord(r: Record) {
    GoodName(r.name) && r.kind < 65536 && r.cls < 65536 && |r.ttl| == 4 && |r.data| < 65536
  }

  ghost function EndBytes(e: NameEnd): seq<Byte> {
    match e
    case Root => [0]
    case Pointer(hi, lo) => [hi, lo]
  }

  ghost function NameBytes(n: Name): seq<Byte> {
    LabelBytes(n.labels) + EndBytes(n.end)
  }

  ghost function QuestionBytes(q: Question): seq<Byte>
    requires GoodQuestion(q)
  {
    NameBytes(q.name) + Tail(q.kind, q.cls)
  }

  /** Type, class, time to live and length: what comes between the name and the data. */
  ghost function Middle(r: Record): seq<Byte>
    requires GoodRecord(r)
  {
    Tail(r.kind, r.cls) + r.ttl + [High(|r.data|), Low(|r.data|)]
  }

  ghost function RecordBytes(r: Record): seq<Byte>
    requires GoodRecord(r)
  {
    NameBytes(r.name) + Middle(r) + r.data
  }

  ghost function AllQuestions(qs: seq<Question>): seq<Byte>
    requires forall i | 0 <= i < |qs| :: GoodQuestion(qs[i])
  {
    if qs == [] then [] else QuestionBytes(qs[0]) + AllQuestions(qs[1..])
  }

  ghost function AllRecords(rs: seq<Record>): seq<Byte>
    requires forall i | 0 <= i < |rs| :: GoodRecord(rs[i])
  {
    if rs == [] then [] else RecordBytes(rs[0]) + AllRecords(rs[1..])
  }

  /** What the resolver should make of the answers: the data of the first that is of the type and class asked for. */
  ghost function FirstMatch(rs: seq<Record>, kind: nat, cls: nat): Outcome {
    if rs == [] then Failed(ERR_OTHER)
    else if rs[0].kind == kind && rs[0].cls == cls then Data(rs[0].data)
    else FirstMatch(rs[1..], kind, cls)
  }

  // ---- The cursor on well-formed replies ----

  /** Skipping a name stops exactly behind it, whatever comes before and after. */
  lemma {:induction false} SkipsName(pre: seq<Byte>, n: Name, post: seq<Byte>)
    requires GoodName(n)
    ensures SkipName(pre + NameBytes(n) + post, |pre|) == |pre| + |NameBytes(n)|
    decreases n.labels
  {
    var p := pre + NameBytes(n) + post;
    if n.labels == [] {
      assert p[|pre|] == EndBytes(n.end)[0];
    } else {
      var l := n.labels[0];
      var n' := n.(labels := n.labels[1..]);
      var pre' := pre + [Low(|l|)] + l;
      assert NameBytes(n) == [Low(|l|)] + l + NameBytes(n');
      assert p == pre' + NameBytes(n') + post;
      assert p[|pre|] == |l|;
      SkipsName(pre', n', post);
    }
  }

  /** Skipping a question stops exactly behind it and has one question fewer to skip. */
  lemma {:induction false} SkipsQuestion(p: seq<Byte>, pre: seq<Byte>, q: Question, post: seq<Byte>, n: nat)
    requires GoodQuestion(q) && n > 0 && p == pre + QuestionBytes(q) + post
    ensures SkipQuestions(p, n, |pre|) == SkipQuestions(p, n - 1, |pre| + |QuestionBytes(q)|)
    decreases q.name.labels
  {
    if q.name.labels == [] {
      assert p[|pre|] == EndBytes(q.name.end)[0];
    } else {
      var l := q.name.labels[0];
      var q' := q.(name := q.name.(labels := q.name.labels[1..]));
      var pre' := pre + [Low(|l|)] + l;
      assert NameBytes(q.name) == [Low(|l|)] + l + NameBytes(q'.name);
      assert QuestionBytes(q) == [Low(|l|)] + l + QuestionBytes(q');
      assert p == pre' + QuestionBytes(q') + post;
      assert p[|pre|] == |l|;
      SkipsQuestion(p, pre', q', post, n);
    }
  }

  lemma {:induction false} SkipsQuestions(pre: seq<Byte>, qs: seq<Question>, post: seq<Byte>)
    requires forall i | 0 <= i < |qs| :: GoodQuestion(qs[i])
    ensures SkipQuestions(pre + AllQuestions(qs) + post, |qs|, |pre|) == |pre| + |AllQuestions(qs)|
  {
    SkipsIn(pre + AllQuestions(qs) + post, pre, qs, post);
  }

  lemma {:induction false} SkipsIn(p: seq<Byte>, pre: seq<Byte>, qs: seq<Question>, post: seq<Byte>)
    requires (forall i | 0 <= i < |qs| :: GoodQuestion(qs[i])) && p == pre + AllQuestions(qs) + post
    ensures SkipQuestions(p, |qs|, |pre|) == |pre| + |AllQuestions(qs)|
    decreases qs
  {
    if qs != [] {
      var b, rest := QuestionBytes(qs[0]), AllQuestions(qs[1..]);
      FirstInside(pre, b, rest, post);
      SkipsQuestion(p, pre, qs[0], rest + post, |qs|);
      SkipsIn(p, pre + b, qs[1..], post);
    }
  }

  lemma FirstInside(pre: seq<Byte>, first: seq<Byte>, rest: seq<Byte>, post: seq<Byte>)
    ensures pre + (first + rest) + post == pre + first + (rest + post)
    ensures pre + (first + rest) + post == (pre + first) + rest + post
  {
  }

  /** What the cursor reads between a record's name and its data. */
  lemma MiddleRead(pre: seq<Byte>, r: Record, post: seq<Byte>, p: seq<Byte>, j: nat)
    requires GoodRecord(r) && p == pre + RecordBytes(r) + post && j == |pre| + |NameBytes(r.name)|
    ensures AtMiddle(p, j, r)
  {
    var name, m := NameBytes(r.name), Middle(r);
    RecordInside(pre, name, m, r.data, post);
    PartsAt(pre + name, m, r.data, post);
    WordOf(r.kind);
    WordOf(r.cls);
    WordOf(|r.data|);
  }

  lemma PartsAt(a: seq<Byte>, m: seq<Byte>, data: seq<Byte>, post: seq<Byte>)
    requires |m| == 10
    ensures var p := a + m + data + post;
            (forall k | 0 <= k < 10 :: p[|a| + k] == m[k]) && p[|a| + 10..|a| + 10 + |data|] == data
  {
  }

  lemma WordOf(w: nat)
    requires w < 65536
    ensures Word(High(w), Low(w)) == w
  {
  }

  /** The cursor finds the records in p, one behind the other, from i on. */
  ghost predicate RecordsAt(p: seq<Byte>, i: nat, rs: seq<Record>)
    decreases |rs|
  {
    rs != [] ==>
      var j := SkipName(p, i);
      AtMiddle(p, j, rs[0]) && |rs[0].data| <= 1023 && RecordsAt(p, j + 10 + |rs[0].data|, rs[1..])
  }

  /** The cursor is behind the name of a record that stands in p. */
  ghost predicate AtMiddle(p: seq<Byte>, j: nat, r: Record) {
    && |p| - j >= 10 + |r.data|
    && Fields(p, j) == (r.kind, r.cls, |r.data|)
    && p[j + 10..j + 10 + |r.data|] == r.data
  }

  lemma {:induction false} WalksRecords(p: seq<Byte>, i: nat, rs: seq<Record>, kind: nat, cls: nat)
    requires RecordsAt(p, i, rs)
    ensures FindAnswer(p, |rs|, i, kind, cls) == FirstMatch(rs, kind, cls)
    decreases |rs|
  {
    if rs != [] {
      var next := SkipName(p, i) + 10 + |rs[0].data|;
      StepsOver(p, i, next, rs[0], |rs|, kind, cls);
      WalksRecords(p, next, rs[1..], kind, cls);
    }
  }

  lemma StepsOver(p: seq<Byte>, i: nat, next: nat, r: Record, n: nat, kind: nat, cls: nat)
    requires n > 0 && |r.data| <= 1023 && AtMiddle(p, SkipName(p, i), r) && next == SkipName(p, i) + 10 + |r.data|
    ensures FindAnswer(p, n, i, kind, cls) ==
            if r.kind == kind && r.cls == cls then Data(r.data) else FindAnswer(p, n - 1, next, kind, cls)
  {
  }

  lemma {:induction false} RecordsStand(pre: seq<Byte>, rs: seq<Record>, post: seq<Byte>)
    requires forall i | 0 <= i < |rs| :: GoodRecord(rs[i])
    requires |AllRecords(rs)| <= PAYLOAD
    ensures RecordsAt(pre + AllRecords(rs) + post, |pre|, rs)
    decreases |rs|
  {
    if rs != [] {
      var b, rest := RecordBytes(rs[0]), AllRecords(rs[1..]);
      FirstInside(pre, b, rest, post);
      var p := pre + (b + rest) + post;
      WalksAnswer(pre, rs[0], rest + post, p, SkipName(p, |pre|));
      RecordsStand(pre + b, rs[1..], post);
    }
  }

  /** The walk over any well-formed answers gives the data of the first that is of the type and class asked for. */
  lemma {:induction false} WalksAnswers(pre: seq<Byte>, rs: seq<Record>, post: seq<Byte>, kind: nat, cls: nat)
    requires forall i | 0 <= i < |rs| :: GoodRecord(rs[i])
    requires |AllRecords(rs)| <= PAYLOAD
    ensures FindAnswer(pre + AllRecords(rs) + post, |rs|, |pre|, kind, cls) == FirstMatch(rs, kind, cls)
  {
    RecordsStand(pre, rs, post);
    WalksRecords(pre + AllRecords(rs) + post, |pre|, rs, kind, cls);
  }

  /** At a record the cursor finds the name's end and, behind it, the record's type, class, length and data. */
  lemma WalksAnswer(pre: seq<Byte>, r: Record, post: seq<Byte>, p: seq<Byte>, j: nat)
    requires GoodRecord(r) && p == pre + RecordBytes(r) + post && j == SkipName(p, |pre|)
    ensures AtMiddle(p, j, r) && j + 10 + |r.data| == |pre| + |RecordBytes(r)|
  {
    NameSkipped(pre, r, post, p);
    MiddleRead(pre, r, post, p, j);
  }

  lemma NameSkipped(pre: seq<Byte>, r: Record, post: seq<Byte>, p: seq<Byte>)
    requires GoodRecord(r) && p == pre + RecordBytes(r) + post
    ensures SkipName(p, |pre|) == |pre| + |NameBytes(r.name)| == |pre| + |RecordBytes(r)| - 10 - |r.data|
  {
    RecordInside(pre, NameBytes(r.name), Middle(r), r.data, post);
    SkipsName(pre, r.name, Middle(r) + r.data + post);
  }

  lemma RecordInside(pre: seq<Byte>, name: seq<Byte>, m: seq<Byte>, data: seq<Byte>, post: seq<Byte>)
    ensures pre + (name + m + data) + post == pre + name + (m + data + post)
    ensures pre + (name + m + data) + post == pre + name + m + data + post
  {
  }

  /** The header of a reply (section 4.1.1 of RFC 1035). */
  ghost function Header(id0: Byte, id1: Byte, flags1: Byte, flags2: Byte, qdcount: nat, ancount: nat,
                        nscount: nat, arcount: nat): seq<Byte>
    requires qdcount < 65536 && ancount < 65536 && nscount < 65536 && arcount < 65536
  {
    [id0, id1, flags1, flags2] + Tail(qdcount, ancount) + Tail(nscount, arcount)
  }

  /** A reply to our query with no error and some answer is walked. */
  lemma ReplyWalked(id0: Byte, id1: Byte, flags1: Byte, flags2: Byte, qdcount: nat, ancount: nat,
                    nscount: nat, arcount: nat, p: seq<Byte>, kind: nat, cls: nat)
    requires qdcount < 65536 && 1 <= ancount < 65536 && nscount < 65536 && arcount < 65536
    requires flags1 / 128 == 1 && (flags1 / 8) % 16 == 0 && flags2 % 16 == 0
    ensures ReadDatagram(id0, id1, kind, cls,
                         Header(id0, id1, flags1, flags2, qdcount, ancount, nscount, arcount) + p)
            == FindAnswer(p, ancount, SkipQuestions(p, qdcount, 0), kind, cls)
  {
    var head := Header(id0, id1, flags1, flags2, qdcount, ancount, nscount, arcount);
    var h := head + p;
    assert |head| == 12 && h[12..] == p;
    assert head[4] == High(qdcount) && head[5] == Low(qdcount) && head[6] == High(ancount) && head[7] == Low(ancount);
    WordOf(qdcount);
    WordOf(ancount);
  }

  /** The whole payload: questions, then answers, then whatever follows. */
  lemma PayloadWalked(qs: seq<Question>, rs: seq<Record>, rest: seq<Byte>, kind: nat, cls: nat)
    requires forall i | 0 <= i < |qs| :: GoodQuestion(qs[i])
    requires forall i | 0 <= i < |rs| :: GoodRecord(rs[i])
    requires |AllQuestions(qs)| + |AllRecords(rs)| <= PAYLOAD
    ensures var p := AllQuestions(qs) + AllRecords(rs) + rest;
            FindAnswer(p, |rs|, SkipQuestions(p, |qs|, 0), kind, cls) == FirstMatch(rs, kind, cls)
  {
    var a, b := AllQuestions(qs), AllRecords(rs);
    Regroup(a, b, rest);
    SkipsAll(qs, b + rest);
    WalksAnswers(a, rs, rest, kind, cls);
  }

  lemma SkipsAll(qs: seq<Question>, post: seq<Byte>)
    requires forall i | 0 <= i < |qs| :: GoodQuestion(qs[i])
    ensures SkipQuestions(AllQuestions(qs) + post, |qs|, 0) == |AllQuestions(qs)|
  {
    SkipsQuestions([], qs, post);
    assert [] + AllQuestions(qs) == AllQuestions(qs);
  }

  /**
   Every well-formed reply to our query that carries at least one answer is read as the data of its
   first answer of the type and class asked for, or as an error if it has none.
   */
  lemma {:induction false} WellFormedReplyRead(id0: Byte, id1: Byte, flags1: Byte, flags2: Byte, kind: nat, cls: nat,
                                               qs: seq<Question>, rs: seq<Record>, nscount: nat, arcount: nat,
                                               rest: seq<Byte>)
    requires forall i | 0 <= i < |qs| :: GoodQuestion(qs[i])
    requires forall i | 0 <= i < |rs| :: GoodRecord(rs[i])
    requires |qs| < 65536 && 1 <= |rs| < 65536 && nscount < 65536 && arcount < 65536
    requires flags1 / 128 == 1 && (flags1 / 8) % 16 == 0 && flags2 % 16 == 0
    requires |AllQuestions(qs)| + |AllRecords(rs)| + |rest| <= PAYLOAD
    ensures Read(id0, id1, kind, cls,
                 Some(Header(id0, id1, flags1, flags2, |qs|, |rs|, nscount, arcount)
                      + (AllQuestions(qs) + AllRecords(rs) + rest)))
            == FirstMatch(rs, kind, cls)
  {
    PayloadWalked(qs, rs, rest, kind, cls);
    var p := AllQuestions(qs) + AllRecords(rs) + rest;
    ReplyWalked(id0, id1, flags1, flags2, |qs|, |rs|, nscount, arcount, p, kind, cls);
  }

  /** What the lookup queue makes of it: the code of a listing is the fourth byte of the (zeroed) result. */
  function Collected(o: Outcome): Reply {
    match o
    case NotOurs => Mismatch
    case Failed(code) => Answer(code, 0)
    case Data(bytes) => Answer(ERR_NONE, if |bytes| > 3 then bytes[3] as bv8 else 0)
  }

  /** The first answer of the type and class asked for, if it is an address, gives the code of a listing. */
  lemma {:induction false} ListingCollected(rs: seq<Record>, n: nat, kind: nat, cls: nat)
    requires n < |rs| && rs[n].kind == kind && rs[n].cls == cls && |rs[n].data| == 4
    requires forall i | 0 <= i < n :: rs[i].kind != kind || rs[i].cls != cls
    ensures Collected(FirstMatch(rs, kind, cls)) == Answer(ERR_NONE, rs[n].data[3] as bv8)
  {
    if n > 0 { ListingCollected(rs[1..], n - 1, kind, cls); }
  }

  /** Our own question is skipped to its last byte, and a reply that repeats it is read right after it. */
  lemma {:induction false} OwnQuestionSkipped(name: seq<Byte>, rr: nat, cls: nat, post: seq<Byte>)
    requires rr < 65536 && cls < 65536
    requires forall i | 0 <= i < |Labels(name)| :: GoodLabel(Labels(name)[i])
    ensures SkipQuestions(Encoded(name, rr, cls) + post, 1, 0) == |name| + 6
  {
    var q := Question(Name(Labels(name), Root), rr, cls);
    EncodedGood(name, rr, cls);
    QuestionRoundTrip(name, rr, cls);
    var b := Encoded(name, rr, cls);
    assert b == QuestionBytes(q);
    SkipsQuestion(b + post, [], q, post, 1);
  }

  // ---- Replies that say no ----

  /** The header of a reply, field by field (section 4.1.1 of RFC 1035). */
  datatype ReplyHeader = ReplyHeader(id0: Byte, id1: Byte, qr: nat, opcode: nat, low: nat, high: nat, rcode: nat,
                                     qdcount: nat, ancount: nat, nscount: nat, arcount: nat)

  ghost predicate GoodHeader(h: ReplyHeader) {
    && h.qr < 2 && h.opcode < 16 && h.low < 8 && h.high < 16 && h.rcode < 16
    && h.qdcount < 65536 && h.ancount < 65536 && h.nscount < 65536 && h.arcount < 65536
  }

  ghost function HeaderBytes(h: ReplyHeader): seq<Byte>
    requires GoodHeader(h)
  {
    Header(h.id0, h.id1, 128 * h.qr + 8 * h.opcode + h.low, 16 * h.high + h.rcode,
           h.qdcount, h.ancount, h.nscount, h.arcount)
  }

  /** What the header alone decides: whose reply it is, and whether it says no. */
  lemma {:induction false} HeaderDecides(id0: Byte, id1: Byte, kind: nat, cls: nat, h: ReplyHeader, p: seq<Byte>)
    requires GoodHeader(h)
    ensures var r := Collected(Read(id0, id1, kind, cls, Some(HeaderBytes(h) + p)));
            var ours := h.id0 == id0 && h.id1 == id1;
            && (r == Mismatch <==> !ours)
            && (ours && (h.qr == 0 || h.opcode != 0) ==> r == Answer(ERR_OTHER, 0))
            && (ours && h.qr == 1 && h.opcode == 0 && h.rcode != 0 ==> r == Answer(h.rcode, 0))
            && (ours && h.qr == 1 && h.opcode == 0 && h.rcode == 0 && h.ancount == 0 ==> r == Answer(ERR_NXDOMAIN, 0))
  {
    var d := HeaderBytes(h) + p;
    HeaderAt(h, p);
    WordOf(h.ancount);
    if h.id0 == id0 && h.id1 == id1 && h.qr == 1 && h.opcode == 0 && h.rcode == 0 && h.ancount > 0 {
      NeverNotOurs(p, h.ancount, SkipQuestions(p, Word(d[4], d[5]), 0), kind, cls);
      assert d[12..] == p;
    }
  }

  lemma HeaderAt(h: ReplyHeader, p: seq<Byte>)
    requires GoodHeader(h)
    ensures var d := HeaderBytes(h) + p;
            && |d| == 12 + |p| && d[0] == h.id0 && d[1] == h.id1
            && d[2] / 128 == h.qr && (d[2] / 8) % 16 == h.opcode && d[3] % 16 == h.rcode
            && d[6] == High(h.ancount) && d[7] == Low(h.ancount)
  {
  }

  lemma {:induction false} NeverNotOurs(p: seq<Byte>, n: nat, i: nat, kind: nat, cls: nat)
    ensures FindAnswer(p, n, i, kind, cls) != NotOurs
    decreases n
  {
    if n > 0 {
      var r := TryRecord(p, i, kind, cls);
      if r.Onward? { NeverNotOurs(p, n - 1, r.next, kind, cls); }
    }
  }

  /** Nothing received is a network error, and a datagram without a whole header is no answer. */
  lemma {:induction false} NothingDecides(id0: Byte, id1: Byte, kind: nat, cls: nat, d: seq<Byte>)
    ensures Collected(Read(id0, id1, kind, cls, None)) == Answer(ERR_NETWORK, 0)
    ensures |d| < 12 ==> Collected(Read(id0, id1, kind, cls, Some(d))) == Answer(ERR_OTHER, 0)
  {
  }

  // ---- The walk itself ----

  method WalkQuestions(p: seq<Byte>, count: nat) returns (i: nat)
    ensures i == SkipQuestions(p, count, 0)
  {
    i := 0;
    var q := 0;
    while q < count && i < |p|
      invariant q <= count && SkipQuestions(p, count - q, i) == SkipQuestions(p, count, 0)
      decreases |p| - i
    {
      if p[i] > 63 {
        i := i + 6;
        q := q + 1;
      } else if p[i] == 0 {
        q := q + 1;
        i := i + 5;
      } else {
        i := i + p[i] + 1;
      }
    }
  }

  method WalkName(p: seq<Byte>, start: nat) returns (i: nat)
    ensures i == SkipName(p, start)
  {
    i := start;
    var q := 0;
    while q == 0 && i < |p|
      invariant q == 0 ==> SkipName(p, i) == SkipName(p, start)
      invariant q != 0 ==> i == SkipName(p, start)
      decreases q == 0, |p| - i
    {
      if p[i] > 63 {
        i := i + 2;
        q := 1;
      } else if p[i] == 0 {
        i := i + 1;
        q := 1;
      } else {
        i := i + p[i] + 1;
      }
    }
  }

  /** firedns_getresult on anything received: it ends, stays inside the datagram, and gives what Read says. */
  method GetResult(id0: Byte, id1: Byte, kind: nat, cls: nat, received: Option<seq<Byte>>) returns (o: Outcome)
    ensures o == Read(id0, id1, kind, cls, received)
  {
    if received.None? {
      return Failed(ERR_NETWORK);
    }
    var h := received.value;
    if |h| < 12 {
      return Failed(ERR_OTHER);
    }
    if id0 != h[0] || id1 != h[1] {
      return NotOurs;
    }
    if h[2] / 128 == 0 || (h[2] / 8) % 16 != 0 {
      return Failed(ERR_OTHER);
    }
    if h[3] % 16 != 0 {
      return Failed(h[3] % 16);
    }
    var ancount := Word(h[6], h[7]);
    if ancount < 1 {
      return Failed(ERR_NXDOMAIN);
    }
    o := WalkReply(h[12..], Word(h[4], h[5]), ancount, kind, cls);
  }

  method ReadRecord(p: seq<Byte>, start: nat, kind: nat, cls: nat) returns (r: Tried)
    ensures r == TryRecord(p, start, kind, cls)
  {
    var i := WalkName(p, start);
    if |p| - i < 10 {
      return Settled(Failed(ERR_OTHER));
    }
    var (k, c, rdlength) := Fields(p, i);
    i := i + 10;
    if k != kind || c != cls {
      return Onward(i + rdlength);
    }
    return Settled(RecordData(p, i, rdlength));
  }

  method WalkReply(p: seq<Byte>, qdcount: nat, ancount: nat, kind: nat, cls: nat) returns (o: Outcome)
    ensures o == FindAnswer(p, ancount, SkipQuestions(p, qdcount, 0), kind, cls)
  {
    var i: nat := WalkQuestions(p, qdcount);
    ghost var goal := FindAnswer(p, ancount, i, kind, cls);
    var curanswer := 0;
    while curanswer < ancount
      invariant curanswer <= ancount
      invariant FindAnswer(p, ancount - curanswer, i, kind, cls) == goal
    {
      var r := ReadRecord(p, i, kind, cls);
      if r.Settled? {
        return r.o;
      }
      curanswer, i := curanswer + 1, r.next;
    }
    return Failed(ERR_OTHER);
  }
}
