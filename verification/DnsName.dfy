/** Domain names as lwip/core/dns.c writes and reads them. */
module DnsName {
  // Sections 2.3.4 and 3.1 of RFC 1035.

  import opened Bytes

  const DOT: byte := 46
  const ERROR: u16 := 0xFFFF

  /** lwip_tolower */
  function ToLower(c: byte): byte {
    if 65 <= c <= 90 then c + 32 else c
  }

  // ---- names as lists of labels ---------------------------------------------------------------

  /** A label: 1 to 63 bytes, none of them a dot or NUL. */
  ghost predicate Label(l: seq<byte>) {
    1 <= |l| <= 63 && forall i :: 0 <= i < |l| ==> l[i] != DOT && l[i] != 0
  }

  ghost predicate Name(labels: seq<seq<byte>>) {
    labels != [] && forall i :: 0 <= i < |labels| ==> Label(labels[i])
  }

  /** The name as a C string: labels with dots between them, and NUL. */
  function CString(labels: seq<seq<byte>>): seq<byte>
    requires labels != []
  {
    if |labels| == 1 then labels[0] + [0] else labels[0] + [DOT] + CString(labels[1..])
  }

  /** The name on the wire: every label behind its length, and a zero. */
  function Encoded(labels: seq<seq<byte>>): seq<byte>
    requires forall i :: 0 <= i < |labels| ==> |labels[i]| < 0x100
  {
    if labels == [] then [0] else [|labels[0]|] + labels[0] + Encoded(labels[1..])
  }

  /** The same name, letters in any case. */
  ghost predicate SameName(a: seq<seq<byte>>, b: seq<seq<byte>>) {
    |a| == |b| && forall i :: 0 <= i < |a| ==> SameLabel(a[i], b[i])
  }

  ghost predicate SameLabel(a: seq<byte>, b: seq<byte>) {
    |a| == |b| && forall i :: 0 <= i < |a| ==> ToLower(a[i]) == ToLower(b[i])
  }

  /** Both forms have the same length but for one byte. */
  lemma {:induction false} EncodedLength(labels: seq<seq<byte>>)
    requires Name(labels)
    ensures |Encoded(labels)| == |CString(labels)| + 1
    decreases |labels|
  {
    if |labels| == 1 {
      assert Encoded(labels[1..]) == [0];
    } else {
      forall i | 0 <= i < |labels[1..]| ensures Label(labels[1..][i]) { assert Label(labels[i + 1]); }
      EncodedLength(labels[1..]);
    }
  }

  // ---- dns_compare_name and dns_skip_name as functions of the bytes ------------------------------------

  /** The `n` bytes from `at` on are, but for case, those from `query` on. */
  ghost predicate LabelMatches(b: seq<byte>, at: nat, n: nat, query: nat -> byte, q: nat) {
    at + n <= |b| && HoldsLabel(query, q, b[at..at + n])
  }

  ghost predicate HoldsLabel(query: nat -> byte, q: nat, w: seq<byte>) {
    forall i :: 0 <= i < |w| ==> ToLower(query(q + i)) == ToLower(w[i])
  }

  /** dns_compare_name at `at`, compared with what stands in memory from `query(q)` on. */
  ghost function CompareFrom(b: seq<byte>, at: nat, query: nat -> byte, q: nat): nat
    decreases |b| - at
  {
    if |b| <= at || 0xC0 <= b[at] then ERROR
    else
      var n := b[at];
      var end := at + 1 + n;
      if !LabelMatches(b, at + 1, n, query, q) || |b| <= end then ERROR
      else if b[end] == 0 then end + 1
      else CompareFrom(b, end, query, q + n + 1)
  }

  /** dns_skip_name at `at`: a compressed name ends with its pointer. */
  ghost function SkipFrom(b: seq<byte>, at: nat): nat
    decreases |b| - at
  {
    if |b| <= at then ERROR
    else if 0xC0 <= b[at] then at + 2
    else
      var end := at + 1 + b[at];
      if |b| <= end then ERROR
      else if b[end] == 0 then end + 1
      else SkipFrom(b, end)
  }

  /** Memory from `q` on holds the string `s`. */
  ghost predicate Holds(query: nat -> byte, q: nat, s: seq<byte>) {
    forall i :: 0 <= i < |s| ==> query(q + i) == s[i]
  }

  /** The bytes from `at` on are `s`. */
  ghost predicate Stands(b: seq<byte>, at: nat, s: seq<byte>) {
    at + |s| <= |b| && b[at..at + |s|] == s
  }

  lemma {:induction false} StandsParts(b: seq<byte>, at: nat, x: seq<byte>, y: seq<byte>)
    requires Stands(b, at, x + y)
    ensures Stands(b, at, x) && Stands(b, at + |x|, y)
  {
    assert b[at..at + |x|] == (x + y)[..|x|];
    assert b[at + |x|..at + |x| + |y|] == (x + y)[|x|..];
  }

  lemma {:induction false} HoldsParts(query: nat -> byte, q: nat, x: seq<byte>, y: seq<byte>)
    requires Holds(query, q, x + y)
    ensures Holds(query, q, x) && Holds(query, q + |x|, y)
  {
    forall i | 0 <= i < |x| ensures query(q + i) == x[i] { assert (x + y)[i] == x[i]; }
    forall i | 0 <= i < |y| ensures query(q + |x| + i) == y[i] { assert (x + y)[|x| + i] == y[i] && query(q + (|x| + i)) == (x + y)[|x| + i]; }
  }

  /** One label of an encoded name. */
  lemma {:induction false} FirstLabel(b: seq<byte>, at: nat, labels: seq<seq<byte>>)
    requires Name(labels) && Stands(b, at, Encoded(labels))
    ensures at < |b| && b[at] == |labels[0]| < 0xC0
    ensures Stands(b, at + 1, labels[0]) && Stands(b, at + 1 + |labels[0]|, Encoded(labels[1..]))
    ensures var end := at + 1 + |labels[0]|; end < |b| && (b[end] == 0 <==> |labels| == 1)
  {
    var l, rest := labels[0], Encoded(labels[1..]);
    assert Label(l);
    assert Encoded(labels) == [|l|] + (l + rest);
    StandsParts(b, at, [|l|], l + rest);
    StandsParts(b, at + 1, l, rest);
    assert b[at..at + 1][0] == |l|;
    var end := at + 1 + |l|;
    assert b[end..end + |rest|][0] == b[end] == rest[0];
    if |labels| == 1 { assert labels[1..] == []; } else { assert Label(labels[1]) && labels[1..][0] == labels[1]; }
  }

  lemma {:induction false} NameRest(labels: seq<seq<byte>>)
    requires Name(labels) && 1 < |labels|
    ensures Name(labels[1..])
  {
    forall i | 0 <= i < |labels[1..]| ensures Label(labels[1..][i]) { assert Label(labels[i + 1]); }
  }

  /** Whoever encodes a name, in whatever letters, finds it by dns_compare_name: the offset behind
      its terminator is returned. */
  lemma {:induction false} CompareFindsEncoded(b: seq<byte>, at: nat, wire: seq<seq<byte>>, labels: seq<seq<byte>>, query: nat -> byte, q: nat)
    requires Name(wire) && Name(labels) && SameName(labels, wire) && Stands(b, at, Encoded(wire)) && Holds(query, q, CString(labels))
    ensures CompareFrom(b, at, query, q) == at + |Encoded(wire)|
    decreases |labels|
  {
    var l, w := labels[0], wire[0];
    var n := |w|;
    FirstLabel(b, at, wire);
    assert SameLabel(l, w) && Label(w);
    StringParts(query, q, labels);
    MatchesLabel(b, at + 1, w, query, q, l);
    var at', q' := at + 1 + n, q + n + 1;
    CompareRound(b, at, query, q, at', q');
    assert |Encoded(wire)| == 1 + n + |Encoded(wire[1..])|;
    if |labels| == 1 {
      assert wire[1..] == [];
    } else {
      NameRest(labels);
      NameRest(wire);
      forall i | 0 <= i < |wire[1..]| ensures SameLabel(labels[1..][i], wire[1..][i]) { assert SameLabel(labels[i + 1], wire[i + 1]); }
      CompareFindsEncoded(b, at', wire[1..], labels[1..], query, q');
    }
  }

  lemma {:induction false} StringParts(query: nat -> byte, q: nat, labels: seq<seq<byte>>)
    requires Name(labels) && Holds(query, q, CString(labels))
    ensures Holds(query, q, labels[0])
    ensures 1 < |labels| ==> Holds(query, q + |labels[0]| + 1, CString(labels[1..]))
  {
    if |labels| == 1 {
      HoldsParts(query, q, labels[0], [0]);
    } else {
      HoldsParts(query, q, labels[0] + [DOT], CString(labels[1..]));
      HoldsParts(query, q, labels[0], [DOT]);
    }
  }

  lemma {:induction false} MatchesLabel(b: seq<byte>, at: nat, w: seq<byte>, query: nat -> byte, q: nat, l: seq<byte>)
    requires Stands(b, at, w) && Holds(query, q, l) && SameLabel(l, w)
    ensures LabelMatches(b, at, |w|, query, q)
  {
    forall i | 0 <= i < |w| ensures ToLower(query(q + i)) == ToLower(w[i]) {
      assert query(q + i) == l[i];
    }
  }

  /** dns_skip_name returns the same offset. */
  lemma {:induction false} SkipFindsEncoded(b: seq<byte>, at: nat, wire: seq<seq<byte>>)
    requires Name(wire) && Stands(b, at, Encoded(wire))
    ensures SkipFrom(b, at) == at + |Encoded(wire)|
    decreases |wire|
  {
    FirstLabel(b, at, wire);
    if |wire| == 1 {
      assert wire[1..] == [];
    } else {
      NameRest(wire);
      SkipFindsEncoded(b, at + 1 + |wire[0]|, wire[1..]);
    }
  }

  /** Labels on the wire with nothing behind them. */
  function Prefix(labels: seq<seq<byte>>): seq<byte>
    requires forall i :: 0 <= i < |labels| ==> |labels[i]| < 0x100
  {
    if labels == [] then [] else [|labels[0]|] + labels[0] + Prefix(labels[1..])
  }

  ghost predicate Labels(labels: seq<seq<byte>>) {
    forall i :: 0 <= i < |labels| ==> Label(labels[i])
  }

  lemma {:induction false} FirstOfPrefix(b: seq<byte>, at: nat, labels: seq<seq<byte>>, rest: seq<byte>)
    requires Labels(labels) && labels != [] && Stands(b, at, Prefix(labels) + rest)
    ensures Labels(labels[1..]) && at < |b| && b[at] == |labels[0]| < 0xC0 && |Prefix(labels)| == 1 + |labels[0]| + |Prefix(labels[1..])|
    ensures Stands(b, at + 1 + |labels[0]|, Prefix(labels[1..]) + rest)
    ensures var end := at + 1 + |labels[0]|;
            end < |b| && Prefix(labels[1..]) + rest != [] ==> b[end] == (Prefix(labels[1..]) + rest)[0]
  {
    var l, tail := labels[0], Prefix(labels[1..]) + rest;
    assert Label(l);
    forall i | 0 <= i < |labels[1..]| ensures Label(labels[1..][i]) { assert Label(labels[i + 1]); }
    assert Prefix(labels) + rest == [|l|] + l + tail;
    StandsParts(b, at, [|l|] + l, tail);
    StandsParts(b, at, [|l|], l);
    assert b[at..at + 1][0] == |l|;
    var end := at + 1 + |l|;
    if tail != [] { assert b[end..end + |tail|][0] == tail[0]; }
  }

  /** A name that ends with a pointer (section 4.1.4 of RFC 1035) is skipped to the end of the pointer,
      whatever comes before it. */
  lemma {:induction false} PointerEndsName(b: seq<byte>, at: nat, labels: seq<seq<byte>>, c: byte)
    requires Labels(labels) && 0xC0 <= c && Stands(b, at, Prefix(labels) + [c])
    ensures SkipFrom(b, at) == at + |Prefix(labels)| + 2
    decreases |labels|
  {
    if labels == [] {
      assert b[at..at + 1][0] == c;
    } else {
      NextIsNoEnd(b, at, labels, c);
      PointerEndsName(b, at + 1 + |labels[0]|, labels[1..], c);
    }
  }

  /** Behind a label comes another one or the pointer, but no zero. */
  lemma {:induction false} NextIsNoEnd(b: seq<byte>, at: nat, labels: seq<seq<byte>>, c: byte)
    requires Labels(labels) && labels != [] && 0xC0 <= c && Stands(b, at, Prefix(labels) + [c])
    ensures Labels(labels[1..]) && at < |b| && b[at] == |labels[0]| < 0xC0 && |Prefix(labels)| == 1 + |labels[0]| + |Prefix(labels[1..])|
    ensures Stands(b, at + 1 + |labels[0]|, Prefix(labels[1..]) + [c])
    ensures at + 1 + |labels[0]| < |b| && b[at + 1 + |labels[0]|] != 0
  {
    FirstOfPrefix(b, at, labels, [c]);
    assert labels[1..] != [] ==> Label(labels[1..][0]);
  }

  /** It is not accepted by dns_compare_name. */
  lemma {:induction false} PointerNotAccepted(b: seq<byte>, at: nat, labels: seq<seq<byte>>, c: byte, query: nat -> byte, q: nat)
    requires Labels(labels) && 0xC0 <= c && Stands(b, at, Prefix(labels) + [c])
    ensures CompareFrom(b, at, query, q) == ERROR
    decreases |labels|
  {
    if labels == [] {
      assert b[at..at + 1][0] == c;
    } else {
      NextIsNoEnd(b, at, labels, c);
      PointerNotAccepted(b, at + 1 + |labels[0]|, labels[1..], c, query, q + |labels[0]| + 1);
    }
  }

  /** A name that the packet ends within is an error to both. */
  lemma {:induction false} TruncatedName(b: seq<byte>, at: nat, labels: seq<seq<byte>>, query: nat -> byte, q: nat)
    requires Labels(labels) && Stands(b, at, Prefix(labels)) && at + |Prefix(labels)| == |b|
    ensures SkipFrom(b, at) == ERROR && CompareFrom(b, at, query, q) == ERROR
    decreases |labels|
  {
    if labels != [] {
      assert Prefix(labels) + [] == Prefix(labels) && Prefix(labels[1..]) + [] == Prefix(labels[1..]);
      FirstOfPrefix(b, at, labels, []);
      assert labels[1..] != [] ==> Label(labels[1..][0]);
      TruncatedName(b, at + 1 + |labels[0]|, labels[1..], query, q + |labels[0]| + 1);
    }
  }

  // ---- what dns_compare_name does not check -----------------------------------------------------------

  /** What it accepts from an encoded name: every label stands in memory, one byte of any value
      after the other, and whatever follows the last one. */
  ghost predicate Accepts(query: nat -> byte, q: nat, wire: seq<seq<byte>>)
    decreases |wire|
  {
    wire == [] || (HoldsLabel(query, q, wire[0]) && Accepts(query, q + |wire[0]| + 1, wire[1..]))
  }

  /** Exactly this decides about an encoded name. */
  lemma {:induction false} CompareAcceptsExactly(b: seq<byte>, at: nat, wire: seq<seq<byte>>, query: nat -> byte, q: nat)
    requires Name(wire) && Stands(b, at, Encoded(wire))
    ensures CompareFrom(b, at, query, q) == (if Accepts(query, q, wire) then at + |Encoded(wire)| else ERROR)
    decreases |wire|
  {
    var w := wire[0];
    FirstLabel(b, at, wire);
    if |wire| == 1 {
      assert wire[1..] == [];
    } else {
      NameRest(wire);
      CompareAcceptsExactly(b, at + 1 + |w|, wire[1..], query, q + |w| + 1);
    }
  }

  /** So the answer for "a" is taken for one to "a.b". */
  lemma {:induction false} AcceptsLessThanTheName(query: nat -> byte)
    requires Holds(query, 0, CString([[97], [98]]))
    ensures Accepts(query, 0, [[97]]) && Name([[97]]) && !SameName([[97], [98]], [[97]])
  {
    assert CString([[97], [98]])[0] == 97;
    var wire: seq<seq<byte>> := [[97]];
    assert wire[1..] == [] && Accepts(query, 2, wire[1..]);
    assert query(0 + 0) == 97;
    assert Label(wire[0]);
  }

  /** Nor does it look at what stands between the labels: the answer for "a.c" is taken for one to
      "abc". */
  lemma {:induction false} AcceptsOtherDots(query: nat -> byte)
    requires Holds(query, 0, CString([[97, 98, 99]]))
    ensures Accepts(query, 0, [[97], [99]]) && Name([[97], [99]]) && !SameName([[97, 98, 99]], [[97], [99]])
  {
    var s, wire: seq<seq<byte>> := CString([[97, 98, 99]]), [[97], [99]];
    assert s == [97, 98, 99, 0] && s[0] == 97 && s[2] == 99;
    assert query(0 + 0) == s[0] && query(0 + 2) == s[2];
    assert wire[1..] == [[99]] && wire[1..][1..] == [];
    assert HoldsLabel(query, 2, wire[1]) && Accepts(query, 4, wire[1..][1..]);
    assert Accepts(query, 2, wire[1..]);
    assert Label(wire[0]) && Label(wire[1]);
  }

  /** As many labels, of the same lengths. */
  ghost predicate SameShape(a: seq<seq<byte>>, b: seq<seq<byte>>) {
    |a| == |b| && forall i :: 0 <= i < |a| ==> |a[i]| == |b[i]|
  }

  /** The shape is all that is missing: a name is the one asked for exactly if it is accepted and
      has the same number of labels with the same lengths. */
  lemma {:induction false} AcceptedSameShape(query: nat -> byte, q: nat, labels: seq<seq<byte>>, wire: seq<seq<byte>>)
    requires Name(labels) && Name(wire) && Holds(query, q, CString(labels))
    ensures SameName(labels, wire) <==> SameShape(labels, wire) && Accepts(query, q, wire)
    decreases |labels|
  {
    if SameShape(labels, wire) {
      assert |labels[0]| == |wire[0]|;
      StringParts(query, q, labels);
      LabelHeld(query, q, labels[0], wire[0]);
      if |labels| == 1 {
        assert wire[1..] == [] && labels == [labels[0]] && wire == [wire[0]];
      } else {
        NameRest(labels);
        NameRest(wire);
        ShapeRest(labels, wire);
        AcceptedSameShape(query, q + |wire[0]| + 1, labels[1..], wire[1..]);
      }
    } else if SameName(labels, wire) {
      SameNameShape(labels, wire);
    }
  }

  /** dns_compare_name decides rightly exactly if the shapes agree or it rejects: whatever it
      accepts in another shape is wrong. */
  lemma {:induction false} RightExactly(query: nat -> byte, q: nat, labels: seq<seq<byte>>, wire: seq<seq<byte>>)
    requires Name(labels) && Name(wire) && Holds(query, q, CString(labels))
    ensures (Accepts(query, q, wire) <==> SameName(labels, wire)) <==> (SameShape(labels, wire) || !Accepts(query, q, wire))
  {
    AcceptedSameShape(query, q, labels, wire);
  }

  lemma {:induction false} SameNameShape(a: seq<seq<byte>>, b: seq<seq<byte>>)
    requires SameName(a, b)
    ensures SameShape(a, b)
  {
    forall i | 0 <= i < |a| ensures |a[i]| == |b[i]| { assert SameLabel(a[i], b[i]); }
  }

  lemma {:induction false} LabelHeld(query: nat -> byte, q: nat, l: seq<byte>, w: seq<byte>)
    requires Holds(query, q, l) && |l| == |w|
    ensures HoldsLabel(query, q, w) <==> SameLabel(l, w)
  {
    assert forall i :: 0 <= i < |l| ==> query(q + i) == l[i];
  }

  lemma {:induction false} ShapeRest(a: seq<seq<byte>>, b: seq<seq<byte>>)
    requires SameShape(a, b) && a != []
    ensures SameShape(a[1..], b[1..]) && (SameName(a, b) <==> SameLabel(a[0], b[0]) && SameName(a[1..], b[1..]))
  {
    forall i | 0 <= i < |a| - 1 ensures a[1..][i] == a[i + 1] && b[1..][i] == b[i + 1] {}
    if SameLabel(a[0], b[0]) && SameName(a[1..], b[1..]) {
      forall i | 0 <= i < |a| ensures SameLabel(a[i], b[i]) { if 0 < i { assert SameLabel(a[1..][i - 1], b[1..][i - 1]); } }
    }
    if SameName(a, b) {
      forall i | 0 <= i < |a| - 1 ensures SameLabel(a[1..][i], b[1..][i]) { assert SameLabel(a[i + 1], b[i + 1]); }
    }
  }

  // ---- rounds of the encoder ---------------------------------------------------------------------------

  /** `done` encodes the labels before `k`; the next one starts at `h` of the string `name`. */
  ghost predicate Encoding(labels: seq<seq<byte>>, name: seq<byte>, k: nat, done: seq<byte>, h: nat) {
    && Name(labels) && k < |labels| && Encoded(labels) == done + Encoded(labels[k..])
    && h <= |name| && name[h..] == CString(labels[k..])
  }

  lemma {:induction false} EncodingStart(labels: seq<seq<byte>>, name: seq<byte>)
    requires Name(labels) && name == CString(labels)
    ensures Encoding(labels, name, 0, [], 0)
  {
    assert labels[0..] == labels && name[0..] == name && [] + Encoded(labels) == Encoded(labels);
  }

  /** What the loop over a label finds. */
  lemma {:induction false} LabelInName(labels: seq<seq<byte>>, name: seq<byte>, k: nat, done: seq<byte>, h: nat) returns (end: nat)
    requires Encoding(labels, name, k, done, h)
    ensures Label(labels[k]) && h <= end < |name| && name[h..end] == labels[k]
    ensures (name[end] == 0 <==> k + 1 == |labels|) && (name[end] == DOT || name[end] == 0)
    ensures forall i :: h <= i < end ==> name[i] != DOT && name[i] != 0
    ensures k + 1 < |labels| ==> name[end + 1..] == CString(labels[k + 1..])
    ensures |done| + 1 + |labels[k]| < |Encoded(labels)|
  {
    var l, tail := labels[k], labels[k..];
    end := h + |l|;
    assert Label(l) && tail[0] == l && tail[1..] == labels[k + 1..];
    var c := name[h..];
    assert c[..|l|] == l;
    assert name[h..end] == c[..|l|] && name[end] == c[|l|];
    forall i | h <= i < end ensures name[i] != DOT && name[i] != 0 { assert name[i] == l[i - h]; }
    if k + 1 < |labels| {
      assert c[|l| + 1..] == CString(labels[k + 1..]);
      assert name[end + 1..] == c[|l| + 1..];
    }
    EncodedNext(labels, k, done);
  }

  lemma {:induction false} EncodedNext(labels: seq<seq<byte>>, k: nat, done: seq<byte>)
    requires Name(labels) && k < |labels| && Encoded(labels) == done + Encoded(labels[k..])
    ensures |labels[k]| < 0x100 && Encoded(labels) == done + [|labels[k]|] + labels[k] + Encoded(labels[k + 1..])
    ensures 0 < |Encoded(labels[k + 1..])|
  {
    assert Label(labels[k]) && labels[k..][0] == labels[k] && labels[k..][1..] == labels[k + 1..];
    assert Encoded(labels[k..]) == [|labels[k]|] + labels[k] + Encoded(labels[k + 1..]);
  }

  lemma {:induction false} EncodingNext(labels: seq<seq<byte>>, name: seq<byte>, k: nat, done: seq<byte>, h: nat, h': nat, done': seq<byte>, k': nat)
    requires Encoding(labels, name, k, done, h) && k' == k + 1 && |labels[k]| < 0x100 && done' == done + [|labels[k]|] + labels[k]
    requires k' < |labels| ==> h' <= |name| && name[h'..] == CString(labels[k'..])
    ensures if k' < |labels| then Encoding(labels, name, k', done', h') else Encoded(labels) == done' + [0]
  {
    EncodedNext(labels, k, done);
    assert k' == |labels| ==> labels[k'..] == [];
  }

  /** One round of dns_compare_name. */
  lemma {:induction false} CompareRound(b: seq<byte>, at: nat, query: nat -> byte, q: nat, at': nat, q': nat)
    requires at < |b| && b[at] < 0xC0 && LabelMatches(b, at + 1, b[at], query, q)
    requires at' == at + 1 + b[at] < |b| && q' == q + b[at] + 1
    ensures CompareFrom(b, at, query, q) == if b[at'] == 0 then at' + 1 else CompareFrom(b, at', query, q')
  {
  }
}
