/**
 The DNS wire format as the resolver writes and reads it: questions as in section 4.1.2 of RFC 1035,
 resource records as in section 4.1.3, names with compression as in section 4.1.4.
 */
module DnsWire {
  import opened Options
  import opened Basics

  const DOT: Byte := 46
  const PAYLOAD: nat := 512

  function Word(hi: Byte, lo: Byte): nat { hi * 256 + lo }
  function High(w: nat): Byte requires w < 65536 { w / 256 }
  function Low(w: nat): Byte { w % 256 }

  // ---- Names and labels ----

  /** The labels of a dotted name: always at least one, possibly empty. */
  function Labels(name: seq<Byte>): (r: seq<seq<Byte>>)
    ensures |r| > 0
  {
    if name == [] then [[]]
    else
      var rest := Labels(name[1..]);
      if name[0] == DOT then [[]] + rest else [[name[0]] + rest[0]] + rest[1..]
  }

  predicate GoodLabel(l: seq<Byte>) { 1 <= |l| <= 63 }

  /** Each label is its length and its bytes. */
  function LabelBytes(labels: seq<seq<Byte>>): seq<Byte> {
    if labels == [] then [] else [Low(|labels[0]|)] + labels[0] + LabelBytes(labels[1..])
  }

  function Tail(rr: nat, cls: nat): seq<Byte>
    requires rr < 65536 && cls < 65536
  {
    [High(rr), Low(rr), High(cls), Low(cls)]
  }

  /** What the encoder writes: every label up to the last dot, then the last label and the root, if it is not empty. */
  function Encoded(name: seq<Byte>, rr: nat, cls: nat): seq<Byte>
    requires rr < 65536 && cls < 65536
  {
    var labels := Labels(name);
    var last := labels[|labels| - 1];
    LabelBytes(labels[..|labels| - 1]) + (if last == [] then [] else LabelBytes([last]) + [0]) + Tail(rr, cls)
  }

  /** Reading a name without compression: its labels and the place after it. */
  function Decode(b: seq<Byte>, i: nat): Option<(seq<seq<Byte>>, nat)>
    decreases |b| - i
  {
    if i >= |b| then None
    else if b[i] == 0 then Some(([], i + 1))
    else if b[i] > 63 || i + 1 + b[i] > |b| then None
    else
      match Decode(b, i + 1 + b[i])
      case None => None
      case Some((rest, e)) => Some(([b[i + 1..i + 1 + b[i]]] + rest, e))
  }

  // ---- Facts about labels ----

  /** Cutting a name at a dot cuts its labels there. */
  lemma {:induction false} LabelsSplit(a: seq<Byte>, b: seq<Byte>)
    requires DOT !in a
    ensures Labels(a + [DOT] + b) == [a] + Labels(b)
  {
    if a == [] {
      assert a + [DOT] + b == [DOT] + b;
      assert ([DOT] + b)[1..] == b;
    } else {
      var s := a + [DOT] + b;
      assert s[1..] == a[1..] + [DOT] + b;
      LabelsSplit(a[1..], b);
      assert a == [a[0]] + a[1..];
    }
  }

  lemma {:induction false} LabelsOfOne(a: seq<Byte>)
    requires DOT !in a
    ensures Labels(a) == [a]
  {
    if a != [] {
      LabelsOfOne(a[1..]);
      assert a == [a[0]] + a[1..];
    }
  }

  lemma {:induction false} LabelBytesConcat(a: seq<seq<Byte>>, b: seq<seq<Byte>>)
    ensures LabelBytes(a + b) == LabelBytes(a) + LabelBytes(b)
  {
    if a == [] {
      assert a + b == b;
    } else {
      assert (a + b)[1..] == a[1..] + b;
      LabelBytesConcat(a[1..], b);
    }
  }

  /** A name has one byte per label byte and one dot between labels. */
  lemma {:induction false} LabelBytesLength(name: seq<Byte>)
    ensures |LabelBytes(Labels(name))| == |name| + 1
  {
    if name != [] {
      var rest := Labels(name[1..]);
      LabelBytesLength(name[1..]);
      if name[0] == DOT {
        assert Labels(name)[1..] == rest;
      } else {
        assert Labels(name)[1..] == rest[1..];
      }
    }
  }

  lemma {:induction false} LastOf(labels: seq<seq<Byte>>)
    requires labels != []
    ensures LabelBytes(labels) == LabelBytes(labels[..|labels| - 1]) + LabelBytes([labels[|labels| - 1]])
  {
    assert labels == labels[..|labels| - 1] + [labels[|labels| - 1]];
    LabelBytesConcat(labels[..|labels| - 1], [labels[|labels| - 1]]);
  }

  /** Reading back what was written, from any place on. */
  lemma LabelMoves<T>(pre: seq<T>, len: seq<T>, l: seq<T>, more: seq<T>, end: seq<T>, post: seq<T>)
    ensures pre + (len + l + more) + end + post == pre + len + l + more + end + post
  {
  }

  lemma {:induction false} DecodeLabels(pre: seq<Byte>, labels: seq<seq<Byte>>, post: seq<Byte>)
    requires forall i | 0 <= i < |labels| :: GoodLabel(labels[i])
    ensures Decode(pre + LabelBytes(labels) + [0] + post, |pre|)
            == Some((labels, |pre| + |LabelBytes(labels)| + 1))
    decreases labels
  {
    var b := pre + LabelBytes(labels) + [0] + post;
    if labels == [] {
      assert b[|pre|] == 0;
    } else {
      var l := labels[0];
      var pre' := pre + [Low(|l|)] + l;
      LabelMoves(pre, [Low(|l|)], l, LabelBytes(labels[1..]), [0], post);
      assert b[|pre|] == |l|;
      assert b[|pre| + 1..|pre| + 1 + |l|] == l;
      DecodeLabels(pre', labels[1..], post);
      assert labels == [l] + labels[1..];
    }
  }

  /** The question of a name with good labels reads back as those labels, in exactly |name| + 6 bytes. */
  lemma {:induction false} QuestionRoundTrip(name: seq<Byte>, rr: nat, cls: nat)
    requires rr < 65536 && cls < 65536
    requires forall i | 0 <= i < |Labels(name)| :: GoodLabel(Labels(name)[i])
    ensures |Encoded(name, rr, cls)| == |name| + 6
    ensures Decode(Encoded(name, rr, cls), 0) == Some((Labels(name), |name| + 2))
    ensures Encoded(name, rr, cls)[|name| + 2..] == Tail(rr, cls)
  {
    var labels := Labels(name);
    var t := Tail(rr, cls);
    LabelBytesLength(name);
    EncodedGood(name, rr, cls);
    DecodeFromStart(labels, t);
  }

  lemma DecodeFromStart(labels: seq<seq<Byte>>, post: seq<Byte>)
    requires forall i | 0 <= i < |labels| :: GoodLabel(labels[i])
    ensures Decode(LabelBytes(labels) + [0] + post, 0) == Some((labels, |LabelBytes(labels)| + 1))
  {
    DecodeLabels([], labels, post);
    assert [] + LabelBytes(labels) + [0] + post == LabelBytes(labels) + [0] + post;
  }

  /** A name whose last label is not empty is written whole, root included. */
  lemma EncodedGood(name: seq<Byte>, rr: nat, cls: nat)
    requires rr < 65536 && cls < 65536 && Labels(name)[|Labels(name)| - 1] != []
    ensures Encoded(name, rr, cls) == LabelBytes(Labels(name)) + [0] + Tail(rr, cls)
  {
    var labels := Labels(name);
    LastOf(labels);
    var a, b, t := LabelBytes(labels[..|labels| - 1]), LabelBytes([labels[|labels| - 1]]), Tail(rr, cls);
    assert a + (b + [0]) + t == a + b + [0] + t;
  }

  lemma {:induction false} DecodeGood(b: seq<Byte>, i: nat)
    requires Decode(b, i).Some?
    ensures forall k | 0 <= k < |Decode(b, i).value.0| :: GoodLabel(Decode(b, i).value.0[k])
    decreases |b| - i
  {
    if b[i] != 0 { DecodeGood(b, i + 1 + b[i]); }
  }

  /** The question reads back as the labels of the name exactly when each has 1 to 63 bytes. */
  lemma {:induction false} QuestionReadsBackExactly(name: seq<Byte>, rr: nat, cls: nat)
    requires rr < 65536 && cls < 65536
    ensures (exists e :: Decode(Encoded(name, rr, cls), 0) == Some((Labels(name), e)))
            <==> forall i | 0 <= i < |Labels(name)| :: GoodLabel(Labels(name)[i])
  {
    if forall i | 0 <= i < |Labels(name)| :: GoodLabel(Labels(name)[i]) {
      QuestionRoundTrip(name, rr, cls);
    }
    if exists e :: Decode(Encoded(name, rr, cls), 0) == Some((Labels(name), e)) {
      DecodeGood(Encoded(name, rr, cls), 0);
    }
  }

  /** A zone written with its trailing dot is sent without the root: `a.` reads as a label and no end. */
  lemma {:induction false} TrailingDotExample()
    ensures Encoded([97, DOT], 1, 1) == [1, 97, 0, 1, 0, 1]
    ensures forall e :: Decode(Encoded([97, DOT], 1, 1), 0) != Some((Labels([97, DOT]), e))
  {
    assert [97, DOT][1..] == [DOT] && [DOT][1..] == [];
    assert Labels([DOT]) == [[], []];
    var rest := Labels([DOT]);
    assert [97] + rest[0] == [97] && rest[1..] == [[]];
    assert Labels([97, DOT]) == [[97]] + [[]] == [[97], []];
    assert [[97], []][..1] == [[97]];
    assert LabelBytes([[97]]) == [1, 97] + LabelBytes([]);
    QuestionReadsBackExactly([97, DOT], 1, 1);
    assert !GoodLabel(Labels([97, DOT])[1]);
  }

  // ---- The encoder ----

  /** strchr from a place on: the next dot, or the end. */
  method NextDot(name: seq<Byte>, i: nat) returns (e: nat)
    requires i <= |name|
    ensures i <= e <= |name| && DOT !in name[i..e] && (e < |name| ==> name[e] == DOT)
  {
    e := i;
    while e < |name| && name[e] != DOT
      invariant i <= e <= |name| && DOT !in name[i..e]
    {
      assert name[i..e + 1] == name[i..e] + [name[e]];
      e := e + 1;
    }
  }

  method Put(payload: array<Byte>, at: nat, bytes: seq<Byte>)
    requires at + |bytes| <= payload.Length
    modifies payload
    ensures payload[..at] == old(payload[..at])
    ensures payload[at..at + |bytes|] == bytes
  {
    var i := 0;
    while i < |bytes|
      invariant i <= |bytes|
      invariant payload[..at] == old(payload[..at])
      invariant payload[at..at + i] == bytes[..i]
    {
      payload[at + i] := bytes[i];
      assert payload[at..at + i + 1] == payload[at..at + i] + [bytes[i]];
      i := i + 1;
    }
  }

  /** Whether the encoder has room: 507 bytes, of which a last label and the root take two more than their text. */
  predicate Fits(name: seq<Byte>) {
    |name| <= if name == [] || name[|name| - 1] == DOT then 507 else 505
  }

  /** The last label is empty exactly if the name is empty or ends in a dot. */
  lemma {:induction false} LastLabelEmpty(name: seq<Byte>)
    ensures var labels := Labels(name);
            labels[|labels| - 1] == [] <==> name == [] || name[|name| - 1] == DOT
  {
    if name != [] { LastLabelEmpty(name[1..]); }
  }

  /** Write one label after those already written. */
  method PutLabel(payload: array<Byte>, pos: nat, l: seq<Byte>, ghost done: seq<seq<Byte>>) returns (next: nat)
    requires pos + |l| + 1 <= payload.Length && payload[..pos] == LabelBytes(done)
    modifies payload
    ensures next == pos + |l| + 1
    ensures payload[..next] == LabelBytes(done + [l])
  {
    next := pos + |l| + 1;
    Put(payload, pos, [Low(|l|)] + l);
    assert payload[..next] == payload[..pos] + payload[pos..next];
    LabelBytesConcat(done, [l]);
    assert LabelBytes([l]) == [Low(|l|)] + l;
  }

  /** Append bytes to what is already written. */
  method Append(payload: array<Byte>, pos: nat, bytes: seq<Byte>)
    requires pos + |bytes| <= payload.Length
    modifies payload
    ensures payload[..pos + |bytes|] == old(payload[..pos]) + bytes
  {
    Put(payload, pos, bytes);
    assert payload[..pos + |bytes|] == payload[..pos] + payload[pos..pos + |bytes|];
  }

  /** The labels of what is left once a label and its dot are taken off. */
  lemma CutAtDot(whole: seq<seq<Byte>>, done: seq<seq<Byte>>, left: seq<Byte>, l: seq<Byte>, rest: seq<Byte>)
    requires left == l + [DOT] + rest && DOT !in l && done + Labels(left) == whole
    ensures done + [l] + Labels(rest) == whole
  {
    LabelsCut(left, l, rest);
    Regroup(done, [l], Labels(rest));
  }

  lemma LabelsCut(left: seq<Byte>, l: seq<Byte>, rest: seq<Byte>)
    requires left == l + [DOT] + rest && DOT !in l
    ensures Labels(left) == [l] + Labels(rest)
  {
    LabelsSplit(l, rest);
  }

  /** Once no dot is left, what remains is the last label. */
  lemma NoDotLeft(name: seq<Byte>, cur: nat, done: seq<seq<Byte>>)
    requires cur <= |name| && DOT !in name[cur..] && done + Labels(name[cur..]) == Labels(name)
    ensures var labels := Labels(name); labels[|labels| - 1] == name[cur..] && labels[..|labels| - 1] == done
    ensures name[cur..] == [] <==> name == [] || name[|name| - 1] == DOT
  {
    LabelsOfOne(name[cur..]);
    LastLabelEmpty(name);
  }

  /** The labels before byte cur of the name are written. */
  ghost predicate Written(name: seq<Byte>, payload: array<Byte>, cur: nat, done: seq<seq<Byte>>)
    reads payload
  {
    && payload.Length == PAYLOAD && cur <= |name| && cur <= 507
    && done + Labels(name[cur..]) == Labels(name)
    && payload[..cur] == LabelBytes(done)
  }

  /** The label from cur up to the dot at e, if there is room. */
  method PutNext(name: seq<Byte>, payload: array<Byte>, cur: nat, e: nat, ghost done: seq<seq<Byte>>)
    returns (pos: nat)
    requires Written(name, payload, cur, done)
    requires cur <= e < |name| && e + 1 <= 507 && DOT !in name[cur..e] && name[e] == DOT
    modifies payload
    ensures pos == e + 1 && Written(name, payload, e + 1, done + [name[cur..e]])
  {
    assert name[cur..] == name[cur..e] + [DOT] + name[e + 1..];
    CutAtDot(Labels(name), done, name[cur..], name[cur..e], name[e + 1..]);
    pos := PutLabel(payload, cur, name[cur..e], done);
  }

  /** firedns_build_query_payload */
  method BuildQueryPayload(name: seq<Byte>, rr: nat, cls: nat, payload: array<Byte>) returns (len: int)
    requires payload.Length == PAYLOAD && rr < 65536 && cls < 65536
    modifies payload
    ensures len == -1 <==> !Fits(name)
    ensures len != -1 ==> 0 <= len <= PAYLOAD && payload[..len] == Encoded(name, rr, cls)
  {
    var pos, cur := 0, 0;
    ghost var done: seq<seq<Byte>> := [];
    var e := NextDot(name, 0);
    assert name[0..] == name;
    while e < |name|
      invariant cur <= e <= |name| && DOT !in name[cur..e] && (e < |name| ==> name[e] == DOT)
      invariant pos == cur && Written(name, payload, cur, done)
      decreases |name| - cur
    {
      if pos + (e - cur) + 1 > 507 {
        return -1;
      }
      pos := PutNext(name, payload, cur, e, done);
      done := done + [name[cur..e]];
      cur := e + 1;
      e := NextDot(name, cur);
    }
    assert name[cur..e] == name[cur..];
    NoDotLeft(name, cur, done);
    len := PutLast(payload, pos, name[cur..], done, rr, cls);
  }

  /** The last label and the root, unless it is empty, then the type and the class. */
  method PutLast(payload: array<Byte>, pos: nat, l: seq<Byte>, ghost done: seq<seq<Byte>>, rr: nat, cls: nat)
    returns (len: int)
    requires payload.Length == PAYLOAD && rr < 65536 && cls < 65536
    requires pos <= 507 && payload[..pos] == LabelBytes(done)
    modifies payload
    ensures len == -1 <==> l != [] && pos + |l| > 505
    ensures len != -1 ==>
              && 0 <= len <= PAYLOAD
              && payload[..len] == LabelBytes(done) + (if l == [] then [] else LabelBytes([l]) + [0]) + Tail(rr, cls)
  {
    var end := pos;
    if |l| > 0 {
      if pos + |l| + 2 > 507 {
        return -1;
      }
      end := PutRoot(payload, pos, l, done);
    }
    Append(payload, end, Tail(rr, cls));
    return end + 4;
  }

  /** The last label and the root behind it. */
  method PutRoot(payload: array<Byte>, pos: nat, l: seq<Byte>, ghost done: seq<seq<Byte>>) returns (end: nat)
    requires pos + |l| + 2 <= payload.Length && payload[..pos] == LabelBytes(done)
    modifies payload
    ensures end == pos + |l| + 2 && payload[..end] == LabelBytes(done) + (LabelBytes([l]) + [0])
  {
    end := PutLabel(payload, pos, l, done);
    LabelBytesConcat(done, [l]);
    Append(payload, end, [0]);
    end := end + 1;
    Regroup(LabelBytes(done), LabelBytes([l]), [0]);
  }
}
