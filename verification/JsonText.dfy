/** JSON texts as trees with all their spacing, and what the scanner of hub.go makes of them. */
module JsonText {
  import opened Bytes
  import opened Results
  import opened JsonScan

  /** A piece of a string: a byte as it stands, or a backslash and the byte it escapes. */
  datatype Piece = Plain(c: byte) | Escape(c: byte)

  datatype Json =
    | Str(content: seq<Piece>)
    | Scalar(chars: Text)                       // a number, true, false or null
    | Container(isObject: bool, body: Body)

  /** What stands between the brackets: spaces only, or entries with commas between them. */
  datatype Body = Empty(space: Text) | Entries(entries: List)

  datatype List = One(entry: Entry) | More(entry: Entry, rest: List)

  datatype Entry = Entry(before: Text, name: Option<Name>, space: Text, value: Json, after: Text)

  datatype Name = Name(key: seq<Piece>, after: Text)

  predicate AllSpace(s: Text) {
    forall i :: 0 <= i < |s| ==>
      s[i] == ' ' as int || s[i] == '\t' as int || s[i] == '\n' as int || s[i] == '\r' as int
  }

  predicate ScalarChars(s: Text) {
    s != [] && forall i :: 0 <= i < |s| ==> ScalarByte(s[i])
  }

  /** Any byte but a space, a comma, a quote or a bracket. */
  predicate ScalarByte(c: byte) {
    && c != ' ' as int && c != '\t' as int && c != '\n' as int && c != '\r' as int && c != ',' as int
    && c != '"' as int && c != '{' as int && c != '}' as int && c != '[' as int && c != ']' as int
  }

  predicate Pieces(ps: seq<Piece>) {
    forall i :: 0 <= i < |ps| && ps[i].Plain? ==> ps[i].c != QUOTE && ps[i].c != BACKSLASH
  }

  predicate WellFormed(v: Json) {
    match v
    case Str(ps) => Pieces(ps)
    case Scalar(cs) => ScalarChars(cs)
    case Container(isObject, body) => BodyOk(body, isObject)
  }

  predicate BodyOk(body: Body, isObject: bool) {
    match body
    case Empty(space) => AllSpace(space)
    case Entries(es) => ListOk(es, isObject)
  }

  /** Every entry of an object has a key, and none of an array has one. */
  predicate ListOk(es: List, isObject: bool) {
    EntryOk(es.entry, isObject) && (es.More? ==> ListOk(es.rest, isObject))
  }

  predicate EntryOk(e: Entry, isObject: bool) {
    && e.name.Some? == isObject && AllSpace(e.before) && AllSpace(e.space) && AllSpace(e.after) && WellFormed(e.value)
    && (e.name.Some? ==> Pieces(e.name.value.key) && AllSpace(e.name.value.after))
  }

  function RawPiece(p: Piece): Text {
    match p
    case Plain(c) => [c]
    case Escape(c) => [BACKSLASH, c]
  }

  function Raw(ps: seq<Piece>): Text {
    if ps == [] then [] else RawPiece(ps[0]) + Raw(ps[1..])
  }

  function Quoted(ps: seq<Piece>): Text {
    [QUOTE] + Raw(ps) + [QUOTE]
  }

  function Print(v: Json): Text {
    match v
    case Str(ps) => Quoted(ps)
    case Scalar(cs) => cs
    case Container(isObject, body) =>
      [if isObject then LBRACE else LBRACKET] + PrintBody(body) + [if isObject then RBRACE else RBRACKET]
  }

  function PrintBody(body: Body): Text {
    match body
    case Empty(space) => space
    case Entries(es) => PrintList(es)
  }

  function PrintList(es: List): Text {
    match es
    case One(e) => PrintEntry(e)
    case More(e, rest) => PrintEntry(e) + [COMMA] + PrintList(rest)
  }

  function PrintName(name: Option<Name>): Text {
    match name
    case None => []
    case Some(l) => Quoted(l.key) + l.after + [COLON]
  }

  function PrintEntry(e: Entry): Text {
    e.before + PrintName(e.name) + e.space + Print(e.value) + e.after
  }

  // ----- Strings, spaces and scalars are skipped as a whole.

  lemma {:induction false} StringSkipped(ps: seq<Piece>, tail: Text)
    requires Pieces(ps)
    ensures QuoteAt(Raw(ps) + [QUOTE] + tail) == |Raw(ps)|
  {
    if ps == [] {
      assert Raw(ps) + [QUOTE] + tail == [QUOTE] + tail;
    } else {
      StringSkipped(ps[1..], tail);
      var rest := Raw(ps[1..]) + [QUOTE] + tail;
      var s := RawPiece(ps[0]) + rest;
      assert Raw(ps) + [QUOTE] + tail == s;
      assert ps[0].Plain? ==> s[0] == ps[0].c && s[1..] == rest;
      assert ps[0].Escape? ==> s[2..] == rest;
    }
  }

  /** Every string that ends is made of pieces, so that texts with pieces in them leave no string out. */
  lemma {:induction false} StringsArePieces(s: Text) returns (ps: seq<Piece>)
    requires QuoteAt(s) >= 0
    ensures Pieces(ps) && Raw(ps) == s[..QuoteAt(s)]
  {
    if s[0] == QUOTE {
      ps := [];
    } else {
      var n := if s[0] == BACKSLASH then 2 else 1;
      var rest := StringsArePieces(s[n..]);
      ps := [if n == 2 then Escape(s[1]) else Plain(s[0])] + rest;
      assert ps[1..] == rest && s[..QuoteAt(s)] == s[..n] + s[n..][..QuoteAt(s[n..])];
    }
  }

  lemma {:induction false} SpaceDropped(space: Text, s: Text)
    requires AllSpace(space) && (s == [] || !IsSpace(s[0]))
    ensures DropSpace(space + s) == s
  {
    if space == [] {
      assert space + s == s;
    } else {
      assert (space + s)[1..] == space[1..] + s;
      SpaceDropped(space[1..], s);
    }
  }

  lemma {:induction false} ScalarDropped(chars: Text, s: Text)
    requires (forall i :: 0 <= i < |chars| ==> !EndsScalar(chars[i])) && s != [] && EndsScalar(s[0])
    ensures DropScalar(chars + s) == s
  {
    if chars == [] {
      assert chars + s == s;
    } else {
      assert (chars + s)[1..] == chars[1..] + s;
      ScalarDropped(chars[1..], s);
    }
  }

  // ----- Containers are skipped to the matching bracket.

  /** Skipping `p` leaves the depth where it was, whatever follows. */
  ghost predicate Neutral(p: Text, tail: Text, depth: int) {
    ContainerLength(p + tail, depth) == Plus(|p|, ContainerLength(tail, depth))
  }

  lemma NeutralAppend(p: Text, q: Text, tail: Text, depth: int)
    requires Neutral(p, q + tail, depth) && Neutral(q, tail, depth)
    ensures Neutral(p + q, tail, depth)
  {
    assert p + q + tail == p + (q + tail);
  }

  /** Bytes that are no quotes or brackets. */
  lemma {:induction false} NeutralBland(p: Text, tail: Text, depth: int)
    requires forall i :: 0 <= i < |p| ==> p[i] != QUOTE && !Opens(p[i]) && !Closes(p[i])
    ensures Neutral(p, tail, depth)
  {
    if p == [] {
      assert p + tail == tail;
    } else {
      assert (p + tail)[1..] == p[1..] + tail;
      NeutralBland(p[1..], tail, depth);
    }
  }

  lemma NeutralString(ps: seq<Piece>, tail: Text, depth: int)
    requires Pieces(ps)
    ensures Neutral(Quoted(ps), tail, depth)
  {
    StringSkipped(ps, tail);
    var s := Quoted(ps) + tail;
    assert s[1..] == Raw(ps) + [QUOTE] + tail;
    assert s[|Raw(ps)| + 2..] == tail;
  }

  lemma {:induction false} NeutralValue(v: Json, tail: Text, depth: int)
    requires WellFormed(v) && depth >= 1
    ensures Neutral(Print(v), tail, depth)
    decreases v
  {
    match v
    case Str(ps) => NeutralString(ps, tail, depth);
    case Scalar(cs) => NeutralBland(cs, tail, depth);
    case Container(isObject, body) =>
      var close := [if isObject then RBRACE else RBRACKET];
      NeutralBody(body, isObject, close + tail, depth + 1);
      var s := PrintBody(body) + (close + tail);
      assert (Print(v) + tail)[1..] == s;
      assert (close + tail)[1..] == tail;
  }

  lemma {:induction false} NeutralBody(body: Body, isObject: bool, tail: Text, depth: int)
    requires BodyOk(body, isObject) && depth >= 1
    ensures Neutral(PrintBody(body), tail, depth)
    decreases body
  {
    match body
    case Empty(space) => NeutralBland(space, tail, depth);
    case Entries(es) => NeutralList(es, isObject, tail, depth);
  }

  lemma {:induction false} NeutralList(es: List, isObject: bool, tail: Text, depth: int)
    requires ListOk(es, isObject) && depth >= 1
    ensures Neutral(PrintList(es), tail, depth)
    decreases es
  {
    match es
    case One(e) => NeutralEntry(e, isObject, tail, depth);
    case More(e, rest) =>
      NeutralList(rest, isObject, tail, depth);
      NeutralBland([COMMA], PrintList(rest) + tail, depth);
      NeutralEntry(e, isObject, [COMMA] + (PrintList(rest) + tail), depth);
      NeutralAppend(PrintEntry(e), [COMMA], PrintList(rest) + tail, depth);
      NeutralAppend(PrintEntry(e) + [COMMA], PrintList(rest), tail, depth);
  }

  lemma {:induction false} NeutralEntry(e: Entry, isObject: bool, tail: Text, depth: int)
    requires EntryOk(e, isObject) && depth >= 1
    ensures Neutral(PrintEntry(e), tail, depth)
    decreases e
  {
    var t1 := e.after + tail;
    var t2 := Print(e.value) + t1;
    var t3 := e.space + t2;
    NeutralBland(e.after, tail, depth);
    NeutralValue(e.value, t1, depth);
    NeutralBland(e.space, t2, depth);
    NeutralName(e.name, t3, depth);
    NeutralBland(e.before, PrintName(e.name) + t3, depth);
    NeutralAppend(e.before, PrintName(e.name), t3, depth);
    NeutralAppend(e.before + PrintName(e.name), e.space, t2, depth);
    NeutralAppend(e.before + PrintName(e.name) + e.space, Print(e.value), t1, depth);
    NeutralAppend(e.before + PrintName(e.name) + e.space + Print(e.value), e.after, tail, depth);
  }

  lemma NeutralName(name: Option<Name>, tail: Text, depth: int)
    requires name.Some? ==> Pieces(name.value.key) && AllSpace(name.value.after)
    ensures Neutral(PrintName(name), tail, depth)
  {
    if name.Some? {
      var l := name.value;
      NeutralBland(l.after + [COLON], tail, depth);
      NeutralString(l.key, l.after + [COLON] + tail, depth);
      NeutralAppend(Quoted(l.key), l.after + [COLON], tail, depth);
      assert Quoted(l.key) + (l.after + [COLON]) == PrintName(name);
    } else {
      NeutralBland([], tail, depth);
    }
  }

  /** A container ends at its own closing bracket, whatever brackets and quotes it holds and whatever follows it. */
  lemma ContainerSkipped(v: Json, tail: Text)
    requires WellFormed(v) && v.Container?
    ensures ContainerLength(Print(v) + tail, 0) == |Print(v)|
  {
    var close := [if v.isObject then RBRACE else RBRACKET];
    NeutralBody(v.body, v.isObject, close + tail, 1);
    assert (Print(v) + tail)[1..] == PrintBody(v.body) + (close + tail);
  }

  // ----- What the text says at the top level.

  /** The last member with the raw key `key` whose value is a string gives the value; `otherwise` when there is none. */
  function LastString(es: List, key: Text, otherwise: Text, unquote: Unquote): Text {
    var here := if HasString(es.entry, key) then Value(Raw(es.entry.value.content), unquote) else otherwise;
    match es
    case One(_) => here
    case More(_, rest) => LastString(rest, key, here, unquote)
  }

  predicate HasString(e: Entry, key: Text) {
    e.value.Str? && e.name.Some? && Raw(e.name.value.key) == key
  }

  /** Each of the five keys by itself. */
  function Gathered(es: List, f: Fields, unquote: Unquote): Fields {
    Fields(LastString(es, TRACE_ID, f.snake, unquote), LastString(es, TRACE_ID_CAMEL, f.camel, unquote),
           LastString(es, SERVICE, f.service, unquote), LastString(es, LEVEL, f.level, unquote),
           LastString(es, SEVERITY, f.severity, unquote))
  }

  function WithEntry(e: Entry, f: Fields, unquote: Unquote): Fields {
    if e.value.Str? && e.name.Some? then f.Put(Raw(e.name.value.key), Value(Raw(e.value.content), unquote)) else f
  }

  lemma KeysDiffer()
    ensures TRACE_ID != TRACE_ID_CAMEL && TRACE_ID != SERVICE && TRACE_ID != LEVEL && TRACE_ID != SEVERITY
    ensures TRACE_ID_CAMEL != SERVICE && TRACE_ID_CAMEL != LEVEL && TRACE_ID_CAMEL != SEVERITY
    ensures SERVICE != LEVEL && SERVICE != SEVERITY && LEVEL != SEVERITY
  {
    assert TRACE_ID[0] == 116 && TRACE_ID_CAMEL[0] == 116 && SERVICE[0] == 115 && LEVEL[0] == 108 && SEVERITY[0] == 115;
    assert |TRACE_ID| == 8 && |TRACE_ID_CAMEL| == 7 && |SERVICE| == 7 && |LEVEL| == 5 && |SEVERITY| == 8;
  }

  lemma GatherStep(es: List, f: Fields, unquote: Unquote)
    ensures es.One? ==> Gathered(es, f, unquote) == WithEntry(es.entry, f, unquote)
    ensures es.More? ==> Gathered(es, f, unquote) == Gathered(es.rest, WithEntry(es.entry, f, unquote), unquote)
  {
    KeysDiffer();
    hide Raw, Value;
  }

  // ----- The scan of a member, of a list of them, of an object.

  lemma NextSkips(after: Text, tail: Text)
    requires AllSpace(after) && tail != [] && (tail[0] == COMMA || Closes(tail[0]))
    ensures Next(after + tail) == if tail[0] == COMMA then tail[1..] else tail
  {
    SpaceDropped(after, tail);
  }

  /** From the value on. */
  lemma ValueScanned(v: Json, key: Text, rest: Text, f: Fields, unquote: Unquote)
    requires WellFormed(v) && rest != [] && EndsScalar(rest[0])
    ensures Print(v) != [] && !IsSpace(Print(v)[0])
    ensures AfterValue(Print(v) + rest, key, f, unquote)
         == Members(Next(rest), if v.Str? then f.Put(key, Value(Raw(v.content), unquote)) else f, unquote)
  {
    hide Members, Next, Value, ContainerLength, QuoteAt, DropScalar, Fields.Put, Raw;
    var s := Print(v) + rest;
    match v {
      case Str(ps) =>
        StringSkipped(ps, rest);
        assert s[1..] == Raw(ps) + [QUOTE] + rest;
        assert s[1..][..|Raw(ps)|] == Raw(ps) && s[|Raw(ps)| + 2..] == rest;
      case Scalar(cs) =>
        ScalarDropped(cs, rest);
      case Container(_, _) =>
        ContainerSkipped(v, rest);
        assert s[|Print(v)|..] == rest;
    }
  }

  /** From the key on. */
  lemma KeyScanned(key: seq<Piece>, after: Text, space: Text, rest: Text, f: Fields, unquote: Unquote)
    requires Pieces(key) && AllSpace(after) && AllSpace(space) && rest != [] && !IsSpace(rest[0])
    ensures Members(Quoted(key) + (after + ([COLON] + (space + rest))), f, unquote)
         == AfterValue(rest, Raw(key), f, unquote)
  {
    hide AfterValue, QuoteAt, Raw, Members;
    KeyRead(key, after, space + rest, f, unquote);
    SpaceDropped(space, rest);
  }

  /** Behind a printed key and its colon comes its value. */
  lemma KeyRead(key: seq<Piece>, after: Text, tail: Text, f: Fields, unquote: Unquote)
    requires Pieces(key) && AllSpace(after)
    ensures Members(Quoted(key) + (after + ([COLON] + tail)), f, unquote)
         == AfterValue(DropSpace(tail), Raw(key), f, unquote)
  {
    hide AfterValue, QuoteAt, Raw;
    var n := |Raw(key)|;
    var s2 := [COLON] + tail;
    var s1 := Quoted(key) + (after + s2);
    StringSkipped(key, after + s2);
    assert s1[1..] == Raw(key) + [QUOTE] + (after + s2);
    assert s1[1..][..n] == Raw(key) && s1[n + 2..] == after + s2;
    SpaceDropped([], s1);
    assert [] + s1 == s1;
    SpaceDropped(after, s2);
    assert s2[1..] == tail;
  }

  /** Spaces before a member do not matter. */
  lemma SpaceBefore(space: Text, s: Text, f: Fields, unquote: Unquote)
    requires AllSpace(space) && (s == [] || !IsSpace(s[0]))
    ensures Members(space + s, f, unquote) == Members(s, f, unquote)
  {
    hide AfterValue, QuoteAt;
    SpaceDropped(space, s);
    SpaceDropped([], s);
    assert [] + s == s;
  }

  lemma EntryScanned(e: Entry, tail: Text, f: Fields, unquote: Unquote)
    requires EntryOk(e, true) && tail != [] && (tail[0] == COMMA || Closes(tail[0]))
    ensures Members(PrintEntry(e) + tail, f, unquote)
         == Members(if tail[0] == COMMA then tail[1..] else tail, WithEntry(e, f, unquote), unquote)
  {
    hide Members, AfterValue, Next, Print, Raw, WellFormed, Pieces, Value, Fields.Put;
    var key, after := e.name.value.key, e.name.value.after;
    var rest := e.after + tail;
    assert rest[0] == if e.after == [] then tail[0] else e.after[0];
    ValueScanned(e.value, Raw(key), rest, f, unquote);
    NextSkips(e.after, tail);
    KeyScanned(key, after, e.space, Print(e.value) + rest, f, unquote);
    SpaceBefore(e.before, Quoted(key) + (after + ([COLON] + (e.space + (Print(e.value) + rest)))), f, unquote);
    EntryText(e, tail);
  }

  lemma EntryText(e: Entry, tail: Text)
    requires e.name.Some?
    ensures var n := e.name.value;
      PrintEntry(e) + tail
        == e.before + (Quoted(n.key) + (n.after + ([COLON] + (e.space + (Print(e.value) + (e.after + tail))))))
  {
  }

  lemma {:induction false} ListScanned(es: List, rest: Text, f: Fields, unquote: Unquote)
    requires ListOk(es, true)
    ensures Members(PrintList(es) + ([RBRACE] + rest), f, unquote) == Gathered(es, f, unquote)
    decreases es
  {
    hide Members, Gathered, WithEntry, EntryOk, PrintEntry;
    GatherStep(es, f, unquote);
    var g := WithEntry(es.entry, f, unquote);
    var close := [RBRACE] + rest;
    match es {
      case One(e) =>
        EntryScanned(e, close, f, unquote);
        NoMembers(rest, g, unquote);
      case More(e, more) =>
        ListScanned(more, rest, g, unquote);
        FirstScanned(e, PrintList(more) + close, f, unquote);
        assert PrintList(es) + close == PrintEntry(e) + ([COMMA] + (PrintList(more) + close));
    }
  }

  lemma FirstScanned(e: Entry, rest: Text, f: Fields, unquote: Unquote)
    requires EntryOk(e, true)
    ensures Members(PrintEntry(e) + ([COMMA] + rest), f, unquote) == Members(rest, WithEntry(e, f, unquote), unquote)
  {
    hide Members, WithEntry, EntryOk, PrintEntry;
    EntryScanned(e, [COMMA] + rest, f, unquote);
    assert ([COMMA] + rest)[1..] == rest;
  }

  lemma NoMembers(rest: Text, f: Fields, unquote: Unquote)
    ensures Members([RBRACE] + rest, f, unquote) == f
  {
    SpaceDropped([], [RBRACE] + rest);
    assert [] + ([RBRACE] + rest) == [RBRACE] + rest;
  }

  /**
   * The scan of an object finds, for each key, the last string value at the top level, and nothing from inside a
   * value.
   */
  lemma ObjectScanned(v: Json, rest: Text, unquote: Unquote)
    requires WellFormed(v) && v.Container? && v.isObject
    ensures Members((Print(v) + rest)[1..], NOTHING, unquote)
         == if v.body.Empty? then NOTHING else Gathered(v.body.entries, NOTHING, unquote)
  {
    var close := [RBRACE] + rest;
    assert (Print(v) + rest)[1..] == PrintBody(v.body) + close;
    match v.body {
      case Empty(space) =>
        SpaceBefore(space, close, NOTHING, unquote);
        NoMembers(rest, NOTHING, unquote);
      case Entries(es) =>
        ListScanned(es, rest, NOTHING, unquote);
    }
  }

  // ----- An object that breaks off.

  lemma {:induction false} QuoteCut(s: Text, k: nat)
    requires k <= QuoteAt(s)
    ensures QuoteAt(s[..k]) == -1
    decreases |s|
  {
    if k > 0 {
      if s[0] == BACKSLASH {
        if k >= 2 {
          assert s[..k][2..] == s[2..][..k - 2];
          QuoteCut(s[2..], k - 2);
        }
      } else {
        assert s[..k][1..] == s[1..][..k - 1];
        QuoteCut(s[1..], k - 1);
      }
    }
  }

  lemma {:induction false} ContainerCut(s: Text, depth: int, k: nat)
    requires k < ContainerLength(s, depth) <= |s|
    ensures ContainerLength(s[..k], depth) == -1
    decreases |s|
  {
    hide ContainerLength, QuoteAt;
    var t := s[..k];
    assert s[0..] == s && t[0..] == t;
    if k == 0 {
      NoContainer(t, depth);
      assert t[|t|..] == t;
    } else {
      ContainerStep(s, 0, depth);
      ContainerStep(t, 0, depth);
      assert t[1..] == s[1..][..k - 1];
      if s[0] == QUOTE {
        var n := QuoteAt(s[1..]);
        if k - 1 <= n {
          QuoteCut(s[1..], k - 1);
        } else {
          QuoteKept(s[1..], k - 1);
          assert t[n + 2..] == s[n + 2..][..k - n - 2];
          ContainerCut(s[n + 2..], depth, k - n - 2);
        }
      } else if Opens(s[0]) {
        ContainerCut(s[1..], depth + 1, k - 1);
      } else if Closes(s[0]) {
        ContainerCut(s[1..], depth - 1, k - 1);
      } else {
        ContainerCut(s[1..], depth, k - 1);
      }
    }
  }

  lemma {:induction false} QuoteKept(s: Text, k: nat)
    requires 0 <= QuoteAt(s) < k <= |s|
    ensures QuoteAt(s[..k]) == QuoteAt(s)
    decreases |s|
  {
    if s[0] == BACKSLASH {
      assert s[..k][2..] == s[2..][..k - 2];
      QuoteKept(s[2..], k - 2);
    } else if s[0] != QUOTE {
      assert s[..k][1..] == s[1..][..k - 1];
      QuoteKept(s[1..], k - 1);
    }
  }

  lemma {:induction false} AllDropped(s: Text)
    ensures AllSpace(s) ==> DropSpace(s) == []
    ensures (forall i :: 0 <= i < |s| ==> !EndsScalar(s[i])) ==> DropScalar(s) == []
  {
    if s != [] {
      AllDropped(s[1..]);
    }
  }

  /** A value that breaks off is not taken. */
  lemma ValueCut(v: Json, k: nat, key: Text, f: Fields, unquote: Unquote)
    requires WellFormed(v) && k < |Print(v)|
    ensures AfterValue(Print(v)[..k], key, f, unquote) == f
  {
    var s := Print(v)[..k];
    if k > 0 {
      match v
      case Str(ps) =>
        StringSkipped(ps, []);
        assert Raw(ps) + [QUOTE] + [] == Raw(ps) + [QUOTE];
        QuoteCut(Raw(ps) + [QUOTE], k - 1);
        assert s[1..] == (Raw(ps) + [QUOTE])[..k - 1];
      case Scalar(cs) =>
        AllDropped(s);
        AllDropped([]);
      case Container(_, _) =>
        ContainerSkipped(v, []);
        assert Print(v) + [] == Print(v);
        ContainerCut(Print(v), 0, k);
    }
  }

  /** A member that breaks off before the end of its value is not taken. */
  lemma MemberCut(key: seq<Piece>, after: Text, space: Text, v: Json, k: nat, f: Fields, unquote: Unquote)
    requires Pieces(key) && AllSpace(after) && AllSpace(space) && WellFormed(v)
    requires k < |Quoted(key)| + |after| + 1 + |space| + |Print(v)|
    ensures Members((Quoted(key) + (after + ([COLON] + (space + Print(v)))))[..k], f, unquote) == f
  {
    hide Members, AfterValue, QuoteAt, WellFormed, Print, Pieces, Raw;
    var n := |Quoted(key)|;
    if k < n {
      assert (Quoted(key) + (after + ([COLON] + (space + Print(v)))))[..k] == Quoted(key)[..k];
      KeyCut(key, k, f, unquote);
    } else if k <= n + |after| {
      var t := after[..k - n];
      assert (Quoted(key) + (after + ([COLON] + (space + Print(v)))))[..k] == Quoted(key) + t;
      ColonCut(key, t, f, unquote);
    } else {
      var rest := (space + Print(v))[..k - n - |after| - 1];
      assert (Quoted(key) + (after + ([COLON] + (space + Print(v)))))[..k] == Quoted(key) + (after + ([COLON] + rest));
      AfterColonCut(key, after, space, v, rest, f, unquote);
    }
  }

  lemma KeyCut(key: seq<Piece>, k: nat, f: Fields, unquote: Unquote)
    requires Pieces(key) && k < |Quoted(key)|
    ensures Members(Quoted(key)[..k], f, unquote) == f
  {
    hide AfterValue, QuoteAt, Raw;
    var s := Quoted(key)[..k];
    SpaceDropped([], s);
    assert [] + s == s;
    if k > 0 {
      StringSkipped(key, []);
      assert Raw(key) + [QUOTE] + [] == Raw(key) + [QUOTE];
      QuoteCut(Raw(key) + [QUOTE], k - 1);
      assert s[1..] == (Raw(key) + [QUOTE])[..k - 1];
    }
  }

  lemma ColonCut(key: seq<Piece>, after: Text, f: Fields, unquote: Unquote)
    requires Pieces(key) && AllSpace(after)
    ensures Members(Quoted(key) + after, f, unquote) == f
  {
    hide AfterValue, QuoteAt, Raw, DropSpace;
    var s := Quoted(key) + after;
    SpaceDropped([], s);
    assert [] + s == s;
    StringSkipped(key, after);
    assert s[1..] == Raw(key) + [QUOTE] + after && s[|Raw(key)| + 2..] == after;
    AllDropped(after);
  }

  lemma AfterColonCut(key: seq<Piece>, after: Text, space: Text, v: Json, rest: Text, f: Fields, unquote: Unquote)
    requires Pieces(key) && AllSpace(after) && AllSpace(space) && WellFormed(v)
    requires rest <= space + Print(v) && |rest| < |space| + |Print(v)|
    ensures Members(Quoted(key) + (after + ([COLON] + rest)), f, unquote) == f
  {
    hide WellFormed, Print, Raw, Quoted, Members, AfterValue, Pieces;
    if |rest| <= |space| {
      assert rest == space[..|rest|];
      AllDropped(rest);
      KeyScannedNothing(key, after, rest, f, unquote);
    } else {
      var cut := Print(v)[..|rest| - |space|];
      assert rest == space + cut;
      ValueScanned(v, [], [COMMA], f, unquote);
      assert cut[0] == Print(v)[0];
      KeyScanned(key, after, space, cut, f, unquote);
      ValueCut(v, |cut|, Raw(key), f, unquote);
    }
  }

  lemma KeyScannedNothing(key: seq<Piece>, after: Text, space: Text, f: Fields, unquote: Unquote)
    requires Pieces(key) && AllSpace(after) && AllSpace(space)
    ensures Members(Quoted(key) + (after + ([COLON] + space)), f, unquote) == f
  {
    hide QuoteAt, Raw, Members;
    KeyRead(key, after, space, f, unquote);
    AllDropped(space);
  }

  lemma EntryCut(e: Entry, k: nat, f: Fields, unquote: Unquote)
    requires EntryOk(e, true) && k <= |PrintEntry(e)|
    ensures Members(PrintEntry(e)[..k], f, unquote)
         == if k < |PrintEntry(e)| - |e.after| then f else WithEntry(e, f, unquote)
  {
    hide WellFormed, Print, Raw, Quoted, Members, AfterValue, Pieces, Value, Fields.Put;
    var name := e.name.value;
    var body := Quoted(name.key) + (name.after + ([COLON] + (e.space + Print(e.value))));
    assert PrintEntry(e) == e.before + body + e.after;
    if k <= |e.before| {
      assert PrintEntry(e)[..k] == e.before[..k];
      OnlySpace(e.before[..k], f, unquote);
    } else if k < |PrintEntry(e)| - |e.after| {
      var cut := body[..k - |e.before|];
      assert PrintEntry(e)[..k] == e.before + cut;
      assert cut[0] == QUOTE by {
        QuotedStarts(name.key);
      }
      SpaceBefore(e.before, cut, f, unquote);
      MemberCut(name.key, name.after, e.space, e.value, |cut|, f, unquote);
    } else {
      WholeEntry(e, e.after[..k - |e.before| - |body|], f, unquote);
      assert PrintEntry(e)[..k] == e.before + body + e.after[..k - |e.before| - |body|];
    }
  }

  lemma QuotedStarts(ps: seq<Piece>)
    ensures Quoted(ps) != [] && Quoted(ps)[0] == QUOTE
  {
  }

  lemma OnlySpace(s: Text, f: Fields, unquote: Unquote)
    requires AllSpace(s)
    ensures Members(s, f, unquote) == f
  {
    AllDropped(s);
  }

  /** A member at the very end of the text. */
  lemma WholeEntry(e: Entry, after: Text, f: Fields, unquote: Unquote)
    requires EntryOk(e, true) && AllSpace(after)
    ensures var n := e.name.value;
      Members(e.before + (Quoted(n.key) + (n.after + ([COLON] + (e.space + Print(e.value))))) + after, f, unquote)
        == WithEntry(e, f, unquote)
  {
    hide WellFormed, Print, Raw, Quoted, Members, AfterValue, Pieces, Value, Fields.Put;
    var n := e.name.value;
    LastValue(e.value, Raw(n.key), after, f, unquote);
    KeyScanned(n.key, n.after, e.space, Print(e.value) + after, f, unquote);
    var s := Quoted(n.key) + (n.after + ([COLON] + (e.space + (Print(e.value) + after))));
    QuotedStarts(n.key);
    assert s[0] == QUOTE;
    SpaceBefore(e.before, s, f, unquote);
    assert e.before + s == e.before + (Quoted(n.key) + (n.after + ([COLON] + (e.space + Print(e.value))))) + after;
  }

  lemma LastValue(v: Json, key: Text, after: Text, f: Fields, unquote: Unquote)
    requires WellFormed(v) && AllSpace(after)
    ensures Print(v) != [] && !IsSpace(Print(v)[0])
    ensures AfterValue(Print(v) + after, key, f, unquote)
         == if v.Str? then f.Put(key, Value(Raw(v.content), unquote)) else f
  {
    var s := Print(v) + after;
    OnlySpace([], f, unquote);
    if v.Scalar? && after == [] {
      assert s == v.chars;
      AllDropped(s);
      AllDropped([]);
    } else if after == [] {
      LastCompound(v, key, f, unquote);
      assert s == Print(v);
    } else {
      ValueScanned(v, key, after, f, unquote);
      AllDropped(after);
      OnlySpace([], if v.Str? then f.Put(key, Value(Raw(v.content), unquote)) else f, unquote);
    }
  }

  lemma LastCompound(v: Json, key: Text, f: Fields, unquote: Unquote)
    requires WellFormed(v) && !v.Scalar?
    ensures AfterValue(Print(v), key, f, unquote) == if v.Str? then f.Put(key, Value(Raw(v.content), unquote)) else f
  {
    hide Value, ContainerLength, QuoteAt, Fields.Put, Raw;
    var s := Print(v);
    AllDropped([]);
    match v
    case Str(ps) =>
      StringSkipped(ps, []);
      assert s[1..] == Raw(ps) + [QUOTE] + [];
      assert s[1..][..|Raw(ps)|] == Raw(ps) && s[|Raw(ps)| + 2..] == [];
      OnlySpace([], f.Put(key, Value(Raw(ps), unquote)), unquote);
    case Container(_, _) =>
      ContainerSkipped(v, []);
      assert s + [] == s && s[|s|..] == [];
      OnlySpace([], f, unquote);
  }

  /** The members whose values end within the first `k` bytes of the list. */
  function WithCut(es: List, k: nat, f: Fields, unquote: Unquote): Fields
    requires ListOk(es, true)
    decreases es
  {
    var n := |PrintEntry(es.entry)|;
    if k < n - |es.entry.after| then f
    else if es.One? || k <= n then WithEntry(es.entry, f, unquote)
    else WithCut(es.rest, k - n - 1, WithEntry(es.entry, f, unquote), unquote)
  }

  /** The scan of an object that breaks off anywhere takes exactly the members whose values are complete. */
  lemma {:induction false} ListCut(es: List, k: nat, f: Fields, unquote: Unquote)
    requires ListOk(es, true) && k <= |PrintList(es)|
    ensures Members(PrintList(es)[..k], f, unquote) == WithCut(es, k, f, unquote)
    decreases es
  {
    hide Members, WithEntry, EntryOk, PrintEntry;
    var p := PrintEntry(es.entry);
    if es.One? || k <= |p| {
      assert PrintList(es)[..k] == p[..k];
      EntryCut(es.entry, k, f, unquote);
    } else {
      var cut := PrintList(es.rest)[..k - |p| - 1];
      assert PrintList(es)[..k] == p + ([COMMA] + cut);
      FirstScanned(es.entry, cut, f, unquote);
      ListCut(es.rest, k - |p| - 1, WithEntry(es.entry, f, unquote), unquote);
    }
  }

  // ----- What a string stands for.

  /** `t` is what the string stands for: its bytes, or, when there are escapes, what unquoting makes of it if it can. */
  ghost predicate Meant(ps: seq<Piece>, t: Text, unquote: Unquote) {
    && ((forall i :: 0 <= i < |ps| ==> ps[i].Plain?) ==> |t| == |ps| && forall i :: 0 <= i < |ps| ==> t[i] == ps[i].c)
    && ((exists i :: 0 <= i < |ps| && ps[i].Escape?) ==>
          match unquote(Quoted(ps)) case Some(u) => t == u case None => t == Raw(ps))
  }

  lemma {:induction false} RawSpec(ps: seq<Piece>)
    requires Pieces(ps)
    ensures BACKSLASH in Raw(ps) <==> exists i :: 0 <= i < |ps| && ps[i].Escape?
    ensures BACKSLASH !in Raw(ps) ==> |Raw(ps)| == |ps| && forall i :: 0 <= i < |ps| ==> Raw(ps)[i] == ps[i].c
  {
    if ps != [] {
      RawSpec(ps[1..]);
      assert forall i :: 0 < i < |ps| ==> ps[i] == ps[1..][i - 1];
      assert ps[0].Escape? ==> Raw(ps)[0] == BACKSLASH;
    }
  }

  lemma ValueMeant(ps: seq<Piece>, unquote: Unquote)
    requires Pieces(ps)
    ensures Meant(ps, Value(Raw(ps), unquote), unquote)
  {
    hide Raw;
    RawSpec(ps);
  }

  /** The entries of a list, in order. */
  function Listed(es: List): (r: seq<Entry>) {
    match es
    case One(e) => [e]
    case More(e, rest) => [e] + Listed(rest)
  }

  /** `t` is what the last of the entries with this key and a string for its value stands for, or `otherwise`. */
  ghost predicate Says(es: seq<Entry>, key: Text, otherwise: Text, t: Text, unquote: Unquote) {
    if forall i :: 0 <= i < |es| ==> !HasString(es[i], key) then t == otherwise
    else exists k :: 0 <= k < |es| && SaidAt(es, key, k, t, unquote)
  }

  ghost predicate SaidAt(es: seq<Entry>, key: Text, k: nat, t: Text, unquote: Unquote)
    requires k < |es|
  {
    && HasString(es[k], key) && (forall i :: k < i < |es| ==> !HasString(es[i], key))
    && Meant(es[k].value.content, t, unquote)
  }

  lemma {:induction false} LastStringSaid(es: List, key: Text, otherwise: Text, unquote: Unquote)
    requires ListOk(es, true)
    ensures Says(Listed(es), key, otherwise, LastString(es, key, otherwise, unquote), unquote)
  {
    hide Meant, Value, Raw;
    var l := Listed(es);
    var e := es.entry;
    var here := if HasString(e, key) then Value(Raw(e.value.content), unquote) else otherwise;
    if HasString(e, key) {
      StringEntry(e, key, unquote);
      assert es.One? ==> SaidAt(l, key, 0, here, unquote);
    }
    if es.More? {
      LastStringSaid(es.rest, key, here, unquote);
      SaysMore(e, Listed(es.rest), key, otherwise, here, LastString(es, key, otherwise, unquote), unquote);
    }
  }

  lemma SaysMore(e: Entry, m: seq<Entry>, key: Text, otherwise: Text, here: Text, t: Text, unquote: Unquote)
    requires Says(m, key, here, t, unquote)
    requires if HasString(e, key) then Meant(e.value.content, here, unquote) else here == otherwise
    ensures Says([e] + m, key, otherwise, t, unquote)
  {
    hide Meant, HasString;
    var l := [e] + m;
    assert forall i :: 0 < i < |l| ==> l[i] == m[i - 1];
    if forall i :: 0 <= i < |m| ==> !HasString(m[i], key) {
      assert HasString(e, key) ==> SaidAt(l, key, 0, t, unquote);
    } else {
      var k :| 0 <= k < |m| && SaidAt(m, key, k, t, unquote);
      assert SaidAt(l, key, k + 1, t, unquote);
    }
  }

  lemma StringEntry(e: Entry, key: Text, unquote: Unquote)
    requires EntryOk(e, true) && HasString(e, key)
    ensures Meant(e.value.content, Value(Raw(e.value.content), unquote), unquote)
  {
    hide Meant, Value;
    ValueMeant(e.value.content, unquote);
  }

  // ----- What the hub takes from a payload.

  /** The members of an object. */
  function MembersOf(v: Json): seq<Entry>
    requires v.Container?
  {
    if v.body.Empty? then [] else Listed(v.body.entries)
  }

  /** trace_id before traceId, level before severity, each the last top-level string of its key. */
  ghost predicate Extracted(v: Json, unquote: Unquote, r: Meta)
    requires v.Container?
  {
    var es := MembersOf(v);
    exists snake, camel, service, level, severity ::
      && Says(es, Ascii("trace_id"), [], snake, unquote) && Says(es, Ascii("traceId"), [], camel, unquote)
      && Says(es, Ascii("service"), [], service, unquote)
      && Says(es, Ascii("level"), [], level, unquote) && Says(es, Ascii("severity"), [], severity, unquote)
      && r.traceID == (if snake != [] then snake else camel) && r.service == service
      && r.level == if level != [] then level else severity
  }

  /** For every object, with anything behind it, the scan gives what the object says. */
  lemma ObjectExtracted(v: Json, rest: Text, unquote: Unquote)
    requires WellFormed(v) && v.Container? && v.isObject
    ensures Extracted(v, unquote, Answer(Members((Print(v) + rest)[1..], NOTHING, unquote)))
  {
    hide Says, LastString, Members, Print, WellFormed;
    ObjectScanned(v, rest, unquote);
    AllSaid(v, TRACE_ID, unquote);
    AllSaid(v, TRACE_ID_CAMEL, unquote);
    AllSaid(v, SERVICE, unquote);
    AllSaid(v, LEVEL, unquote);
    AllSaid(v, SEVERITY, unquote);
  }

  lemma AllSaid(v: Json, key: Text, unquote: Unquote)
    requires WellFormed(v) && v.Container? && v.isObject
    ensures var t := if v.body.Empty? then [] else LastString(v.body.entries, key, [], unquote);
      Says(MembersOf(v), key, [], t, unquote)
  {
    hide LastString, Meant, HasString;
    if v.body.Entries? {
      LastStringSaid(v.body.entries, key, [], unquote);
    }
  }

  /**
   * extractMetadataFromPayload: the scan, with the topic and INFO as defaults. For a payload that is an object, with
   * anything behind it, `found` is what the object says.
   */
  method ExtractMetadata(topic: Text, payload: Text, trim: Text -> Text, unquote: Unquote)
    returns (r: Meta, ghost found: Meta)
    ensures r.traceID == found.traceID && r.service == (if found.service != [] then found.service else topic)
    ensures r.level == if found.level != [] then found.level else Ascii("INFO")
    ensures !(Ascii("{") <= trim(payload)) ==> found == Meta([], [], [])
    ensures forall v, rest :: WellFormed(v) && v.Container? && v.isObject && trim(payload) == Print(v) + rest ==>
      Extracted(v, unquote, found)
    ensures found == if Ascii("{") <= trim(payload) then Answer(Members(trim(payload)[1..], NOTHING, unquote))
                     else Meta([], [], [])
  {
    var b := trim(payload);
    forall v, rest | WellFormed(v) && v.Container? && v.isObject && b == Print(v) + rest
      ensures |b| >= 2 && b[0] == LBRACE && Extracted(v, unquote, Answer(Members(b[1..], NOTHING, unquote)))
    {
      ObjectExtracted(v, rest, unquote);
    }
    hide *;
    var traceID, service, level := [], [], [];
    if |b| >= 2 && b[0] == LBRACE {
      var meta := ScanTopLevelMeta(b, unquote);
      traceID, service, level := meta.traceID, meta.service, meta.level;
    }
    found := Meta(traceID, service, level);
    if service == [] {
      service := topic;
    }
    if level == [] {
      level := INFO;
    }
    r := Meta(traceID, service, level);
  }
}
