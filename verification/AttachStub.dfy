/** The stub kept in place of an attachment's bytes: five lines naming them, written and read. */
module AttachStub {
  import opened Basics

  datatype Ref = Ref(sha256: string, size: int, mimetype: string, name: string)

  const HEADER: string := "quarry-attachment 1"
  const MAX_BYTES: nat := 1024
  const INT64_LIMIT: int := 0x8000_0000_0000_0000

  // -------------------------------------------------------------------------- decimals

  function DigitChar(d: nat): char
    requires d < 10
  {
    '0' + (d as char)
  }

  /** n in canonical decimal. */
  function Decimal(n: nat): (s: string)
    ensures s != ""
  {
    if n < 10 then [DigitChar(n)] else Decimal(n / 10) + [DigitChar(n % 10)]
  }

  predicate IsDigit(c: char) {
    '0' <= c <= '9'
  }

  /** The value of a string of digits. */
  function Digits(s: string): Option<nat> {
    if s == "" then None
    else if !IsDigit(s[|s| - 1]) then None
    else
      var d := (s[|s| - 1] - '0') as nat;
      if |s| == 1 then Some(d)
      else
        match Digits(s[..|s| - 1])
        case None => None
        case Some(n) => Some(10 * n + d)
  }

  lemma {:induction false} DecimalReadsBack(n: nat)
    ensures Digits(Decimal(n)) == Some(n)
    ensures forall i :: 0 <= i < |Decimal(n)| ==> IsDigit(Decimal(n)[i])
  {
    var s := Decimal(n);
    if n >= 10 {
      DecimalReadsBack(n / 10);
      assert s[..|s| - 1] == Decimal(n / 10);
    }
  }

  // ----------------------------------------------------------------------------- lines

  /** The text cut at every newline. */
  function Split(s: string): (lines: seq<string>)
    ensures lines != []
    decreases |s|
  {
    if s == "" then [""]
    else if s[0] == '\n' then [""] + Split(s[1..])
    else
      var rest := Split(s[1..]);
      [[s[0]] + rest[0]] + rest[1..]
  }

  /** The lines with a newline between each and the next. */
  function Joined(lines: seq<string>): string {
    if lines == [] then "" else if |lines| == 1 then lines[0] else lines[0] + "\n" + Joined(lines[1..])
  }

  predicate OneLine(s: string) {
    '\n' !in s
  }

  lemma {:induction false} SplitJoins(s: string)
    ensures Joined(Split(s)) == s
    decreases |s|
  {
    if s != "" {
      var rest := Split(s[1..]);
      SplitJoins(s[1..]);
      assert s == [s[0]] + s[1..];
      if s[0] == '\n' {
        JoinBlank(rest);
      } else {
        JoinOnto(s[0], rest);
      }
    }
  }

  lemma {:induction false} JoinBlank(rest: seq<string>)
    requires rest != []
    ensures Joined([""] + rest) == "\n" + Joined(rest)
  {
    assert ([""] + rest)[1..] == rest;
  }

  lemma {:induction false} JoinOnto(c: char, rest: seq<string>)
    requires rest != []
    ensures Joined([[c] + rest[0]] + rest[1..]) == [c] + Joined(rest)
  {
    var lines := [[c] + rest[0]] + rest[1..];
    assert lines[1..] == rest[1..];
  }

  lemma {:induction false} SplitInLines(s: string)
    ensures forall i :: 0 <= i < |Split(s)| ==> OneLine(Split(s)[i])
    decreases |s|
  {
    if s != "" {
      SplitInLines(s[1..]);
    }
  }

  lemma {:induction false} SplitOne(line: string)
    requires OneLine(line)
    ensures Split(line) == [line]
    decreases |line|
  {
    if line != "" {
      SplitOne(line[1..]);
      assert line == [line[0]] + line[1..];
    }
  }

  lemma {:induction false} SplitFirst(line: string, rest: string)
    requires OneLine(line)
    ensures Split(line + "\n" + rest) == [line] + Split(rest)
    decreases |line|
  {
    var s := line + "\n" + rest;
    if line == "" {
      assert s[1..] == rest;
    } else {
      SplitFirst(line[1..], rest);
      assert s[0] == line[0] && s[1..] == line[1..] + "\n" + rest;
      assert line == [line[0]] + line[1..];
    }
  }

  lemma {:induction false} JoinedSplits(lines: seq<string>)
    requires lines != [] && forall i :: 0 <= i < |lines| ==> OneLine(lines[i])
    ensures Split(Joined(lines)) == lines
    decreases |lines|
  {
    if |lines| == 1 {
      SplitOne(lines[0]);
    } else {
      JoinedSplits(lines[1..]);
      SplitFirst(lines[0], Joined(lines[1..]));
      assert lines == [lines[0]] + lines[1..];
    }
  }

  // ---------------------------------------------------------------------------- fields

  datatype Kind = ShaKind | SizeKind | TypeKind | NameKind

  datatype Field = Field(kind: Kind, text: string)

  function Key(k: Kind): string {
    match k
    case ShaKind => "sha256"
    case SizeKind => "size"
    case TypeKind => "type"
    case NameKind => "name"
  }

  function LineOf(f: Field): string {
    Key(f.kind) + " " + f.text
  }

  predicate IsSHA256(s: string) {
    |s| == 64 && forall i :: 0 <= i < |s| ==> IsDigit(s[i]) || 'a' <= s[i] <= 'f'
  }

  /** A size is written in canonical decimal and fits 64 bits. */
  predicate IsSize(s: string) {
    Digits(s).Some? && Digits(s).value < INT64_LIMIT && Decimal(Digits(s).value) == s
  }

  predicate ValidField(f: Field) {
    f.text != "" && (f.kind == ShaKind ==> IsSHA256(f.text)) && (f.kind == SizeKind ==> IsSize(f.text))
  }

  /** The line up to its first space, and after it. */
  function Cut(line: string): Option<(string, string)> {
    if line == "" then None
    else if line[0] == ' ' then Some(("", line[1..]))
    else
      match Cut(line[1..])
      case None => None
      case Some(kv) => Some(([line[0]] + kv.0, kv.1))
  }

  lemma {:induction false} CutKey(key: string, text: string)
    requires ' ' !in key
    ensures Cut(key + " " + text) == Some((key, text))
    decreases |key|
  {
    var line := key + " " + text;
    if key == "" {
      assert line[0] == ' ' && line[1..] == text;
    } else {
      CutKey(key[1..], text);
      assert line[0] == key[0] && line[1..] == key[1..] + " " + text;
      assert key == [key[0]] + key[1..];
    }
  }

  lemma {:induction false} CutJoins(line: string)
    ensures Cut(line).Some? ==> line == Cut(line).value.0 + " " + Cut(line).value.1
    decreases |line|
  {
    if line != "" {
      if line[0] == ' ' {
        assert line == " " + line[1..];
      } else {
        CutJoins(line[1..]);
        assert line == [line[0]] + line[1..];
      }
    }
  }

  function KindOf(key: string): Option<Kind> {
    if key == "sha256" then Some(ShaKind)
    else if key == "size" then Some(SizeKind)
    else if key == "type" then Some(TypeKind)
    else if key == "name" then Some(NameKind)
    else None
  }

  lemma {:induction false} KindOfKey(k: Kind)
    ensures KindOf(Key(k)) == Some(k) && ' ' !in Key(k) && '\n' !in Key(k)
  {
    assert |"sha256"| == 6 && |"size"| == 4 && |"type"| == 4 && |"name"| == 4;
    assert "size"[0] == 's' && "type"[0] == 't' && "name"[0] == 'n';
  }

  /** The field a line holds, if it holds one. */
  function FieldOf(line: string): Option<Field> {
    match Cut(line)
    case None => None
    case Some(kv) =>
      match KindOf(kv.0)
      case None => None
      case Some(k) => if ValidField(Field(k, kv.1)) then Some(Field(k, kv.1)) else None
  }

  /** A line holds a field exactly when it is that field's line. */
  lemma {:induction false} FieldLine(line: string, f: Field)
    ensures FieldOf(line) == Some(f) <==> line == LineOf(f) && ValidField(f)
  {
    KindOfKey(f.kind);
    CutKey(Key(f.kind), f.text);
    CutJoins(line);
  }

  // -------------------------------------------------------------------- what a stub says

  function TextOf(ref: Ref, k: Kind): string {
    match k
    case ShaKind => ref.sha256
    case SizeKind => if ref.size >= 0 then Decimal(ref.size) else ""
    case TypeKind => ref.mimetype
    case NameKind => ref.name
  }

  function FieldFor(ref: Ref, k: Kind): Field {
    Field(k, TextOf(ref, k))
  }

  /** The fields of a stub, in the order they are written. */
  function Fields(ref: Ref): seq<Field> {
    [FieldFor(ref, ShaKind), FieldFor(ref, SizeKind), FieldFor(ref, TypeKind), FieldFor(ref, NameKind)]
  }

  function Lines(fs: seq<Field>): (lines: seq<string>)
    ensures |lines| == |fs| + 1
  {
    [HEADER] + seq(|fs|, i requires 0 <= i < |fs| => LineOf(fs[i]))
  }

  /** fs has the fields of ref, in some order. */
  ghost predicate Orders(fs: seq<Field>, ref: Ref) {
    multiset(fs) == multiset(Fields(ref))
  }

  /** A ref that can be written: nothing in it breaks a line. */
  predicate Writable(ref: Ref) {
    && IsSHA256(ref.sha256) && 0 <= ref.size < INT64_LIMIT
    && SingleLine(ref.mimetype) && SingleLine(ref.name)
  }

  predicate SingleLine(s: string) {
    s != "" && '\n' !in s && '\r' !in s
  }

  /** Four fields of different kinds, each as ref has it. */
  ghost predicate EachOnce(fs: seq<Field>, ref: Ref) {
    && |fs| == 4
    && (forall i, j :: 0 <= i < j < 4 ==> fs[i].kind != fs[j].kind)
    && (forall i :: 0 <= i < 4 ==> fs[i] == FieldFor(ref, fs[i].kind))
  }

  lemma {:induction false} OrdersEachOnce(fs: seq<Field>, ref: Ref)
    requires Orders(fs, ref)
    ensures EachOnce(fs, ref)
  {
    assert |fs| == |multiset(fs)| == |multiset(Fields(ref))| == 4;
    forall i | 0 <= i < 4 ensures fs[i] == FieldFor(ref, fs[i].kind) {
      assert fs[i] in multiset(fs);
      assert fs[i] in multiset(Fields(ref));
    }
    forall i, j | 0 <= i < j < 4 ensures fs[i].kind != fs[j].kind {
      if fs[i] == fs[j] {
        TwiceThere(fs, i, j);
        OnceThere(ref, fs[i]);
      }
    }
  }

  lemma {:induction false} TwiceThere(fs: seq<Field>, i: nat, j: nat)
    requires i < j < |fs| && fs[i] == fs[j]
    ensures multiset(fs)[fs[i]] >= 2
  {
    var a, b := fs[..j], fs[j..];
    assert fs == a + b && a[i] == fs[i] && b[0] == fs[j];
    assert fs[i] in a && fs[i] in b;
  }

  lemma {:induction false} OnceThere(ref: Ref, f: Field)
    ensures multiset(Fields(ref))[f] <= 1
  {
  }

  /** In a list without repeats each element counts once. */
  lemma {:induction false} CountOnce(fs: seq<Field>, f: Field)
    requires forall i, j :: 0 <= i < j < |fs| ==> fs[i].kind != fs[j].kind
    ensures multiset(fs)[f] == if f in fs then 1 else 0
    decreases |fs|
  {
    if fs != [] {
      var init, last := fs[..|fs| - 1], fs[|fs| - 1];
      CountOnce(init, f);
      assert fs == init + [last];
      assert last !in init;
    }
  }

  lemma {:induction false} EachOnceOrders(fs: seq<Field>, ref: Ref)
    requires EachOnce(fs, ref)
    ensures Orders(fs, ref)
  {
    var gs := Fields(ref);
    forall f ensures multiset(fs)[f] == multiset(gs)[f] {
      CountOnce(fs, f);
      CountOnce(gs, f);
      SameFields(fs, ref, f);
    }
  }

  lemma {:induction false} SameFields(fs: seq<Field>, ref: Ref, f: Field)
    requires EachOnce(fs, ref)
    ensures f in fs <==> f in Fields(ref)
  {
    if f in Fields(ref) {
      assert f == FieldFor(ref, f.kind);
      AllKinds(fs, ref, f.kind);
      var i :| 0 <= i < 4 && fs[i].kind == f.kind;
      assert fs[i] == f;
    }
  }

  lemma {:induction false} AllKinds(fs: seq<Field>, ref: Ref, k: Kind)
    requires EachOnce(fs, ref)
    ensures exists i :: 0 <= i < 4 && fs[i].kind == k
  {
    if fs[0].kind != k && fs[1].kind != k && fs[2].kind != k {
      assert fs[3].kind == k;
    }
  }

  // ----------------------------------------------------------------------------- reading

  function TrimNewline(raw: string): string {
    if raw != "" && raw[|raw| - 1] == '\n' then raw[..|raw| - 1] else raw
  }

  ghost predicate AllValid(fs: seq<Field>) {
    forall i :: 0 <= i < |fs| ==> ValidField(fs[i])
  }

  /** raw is a stub saying ref: the header, then each of ref's fields on a line, in some order. */
  ghost predicate Says(raw: string, ref: Ref) {
    |raw| <= MAX_BYTES && exists fs :: EachOnce(fs, ref) && AllValid(fs) && Split(TrimNewline(raw)) == Lines(fs)
  }

  /** The fields said by the first lines, each kind once. */
  ghost predicate ReadTo(lines: seq<string>, fs: seq<Field>, seen: set<Kind>, ref: Ref) {
    && |fs| < |lines| && AllValid(fs)
    && (forall i :: 0 <= i < |fs| ==> lines[i + 1] == LineOf(fs[i]))
    && (forall i, j :: 0 <= i < j < |fs| ==> fs[i].kind != fs[j].kind)
    && (forall k :: k in seen <==> exists i :: 0 <= i < |fs| && fs[i].kind == k)
    && (forall i :: 0 <= i < |fs| ==> fs[i] == FieldFor(ref, fs[i].kind))
  }

  /** Lines that are fields' lines are those of one list of fields only. */
  lemma {:induction false} LinesTellFields(lines: seq<string>, fs: seq<Field>, i: nat)
    requires lines == Lines(fs) && AllValid(fs) && i < |fs|
    ensures FieldOf(lines[i + 1]) == Some(fs[i])
  {
    FieldLine(lines[i + 1], fs[i]);
  }

  /** A line that is no field's, or repeats a kind, is in no stub. */
  lemma {:induction false} NoStub(
    raw: string, lines: seq<string>, fs: seq<Field>, seen: set<Kind>, partial: Ref, ref: Ref)
    requires lines == Split(TrimNewline(raw)) && |lines| == 5 && |fs| < 4 && ReadTo(lines, fs, seen, partial)
    requires FieldOf(lines[|fs| + 1]) == None || FieldOf(lines[|fs| + 1]).value.kind in seen
    ensures !Says(raw, ref)
  {
    if gs: seq<Field> :| EachOnce(gs, ref) && AllValid(gs) && lines == Lines(gs) {
      var n := |fs|;
      LinesTellFields(lines, gs, n);
      var i :| 0 <= i < n && fs[i].kind == gs[n].kind;
      LinesTellFields(lines, gs, i);
      FieldLine(lines[i + 1], fs[i]);
    }
  }

  function Put(ref: Ref, f: Field): Ref {
    match f.kind
    case ShaKind => ref.(sha256 := f.text)
    case SizeKind => ref.(size := if Digits(f.text).Some? then Digits(f.text).value else 0)
    case TypeKind => ref.(mimetype := f.text)
    case NameKind => ref.(name := f.text)
  }

  lemma {:induction false} PutOne(lines: seq<string>, fs: seq<Field>, seen: set<Kind>, ref: Ref, f: Field)
    requires ReadTo(lines, fs, seen, ref) && |fs| + 1 < |lines| && lines[|fs| + 1] == LineOf(f) && ValidField(f)
             && f.kind !in seen
    ensures ReadTo(lines, fs + [f], seen + {f.kind}, Put(ref, f))
  {
    PutTexts(fs, seen, ref, f);
    PutSeen(fs, seen, f);
  }

  lemma {:induction false} PutTexts(fs: seq<Field>, seen: set<Kind>, ref: Ref, f: Field)
    requires (forall i :: 0 <= i < |fs| ==> fs[i].kind in seen && fs[i] == FieldFor(ref, fs[i].kind)) && ValidField(f)
             && f.kind !in seen
    ensures forall i :: 0 <= i < |fs| + 1 ==> (fs + [f])[i] == FieldFor(Put(ref, f), (fs + [f])[i].kind)
  {
    forall i | 0 <= i < |fs| ensures fs[i] == FieldFor(Put(ref, f), fs[i].kind) {
      assert fs[i].kind in seen;
    }
  }

  lemma {:induction false} PutSeen(fs: seq<Field>, seen: set<Kind>, f: Field)
    requires forall k :: k in seen <==> exists i :: 0 <= i < |fs| && fs[i].kind == k
    ensures forall k :: k in seen + {f.kind} <==> exists i :: 0 <= i < |fs| + 1 && (fs + [f])[i].kind == k
  {
    var more := fs + [f];
    forall k ensures k in seen + {f.kind} <==> exists i :: 0 <= i < |more| && more[i].kind == k {
      if k in seen {
        var i :| 0 <= i < |fs| && fs[i].kind == k;
        assert more[i].kind == k;
      }
      assert more[|fs|].kind == f.kind;
    }
  }

  lemma {:induction false} NeedsHeader(raw: string, ref: Ref)
    ensures Says(raw, ref) ==> Split(TrimNewline(raw))[0] == HEADER && |Split(TrimNewline(raw))| == 5
  {
  }

  lemma {:induction false} AllRead(raw: string, lines: seq<string>, fs: seq<Field>, seen: set<Kind>, ref: Ref)
    requires |raw| <= MAX_BYTES && lines == Split(TrimNewline(raw)) && |lines| == 5 && lines[0] == HEADER
    requires |fs| == 4 && ReadTo(lines, fs, seen, ref)
    ensures Says(raw, ref)
  {
    assert lines == Lines(fs);
  }

  /** The ref a stub says; none exactly when the text is no stub. */
  method Parse(raw: string) returns (r: Option<Ref>)
    ensures r.Some? ==> Says(raw, r.value)
    ensures r == None ==> forall ref :: !Says(raw, ref)
  {
    if |raw| > MAX_BYTES {
      return None;
    }
    var lines := Split(TrimNewline(raw));
    if lines[0] != HEADER || |lines| != 5 {
      forall ref ensures !Says(raw, ref) {
        NeedsHeader(raw, ref);
      }
      return None;
    }
    var ref, seen: set<Kind> := Ref("", 0, "", ""), {};
    ghost var fs: seq<Field> := [];
    for i := 1 to 5
      invariant |fs| == i - 1 && ReadTo(lines, fs, seen, ref)
    {
      var field := FieldOf(lines[i]);
      if field == None || field.value.kind in seen {
        forall other ensures !Says(raw, other) {
          NoStub(raw, lines, fs, seen, ref, other);
        }
        return None;
      }
      FieldLine(lines[i], field.value);
      PutOne(lines, fs, seen, ref, field.value);
      seen := seen + {field.value.kind};
      ref := Put(ref, field.value);
      fs := fs + [field.value];
    }
    AllRead(raw, lines, fs, seen, ref);
    r := Some(ref);
  }

  /** A text says at most one thing. */
  lemma {:induction false} SaysOne(raw: string, a: Ref, b: Ref)
    requires Says(raw, a) && Says(raw, b)
    ensures a == b
  {
    var lines := Split(TrimNewline(raw));
    var fs :| EachOnce(fs, a) && AllValid(fs) && lines == Lines(fs);
    var gs :| EachOnce(gs, b) && AllValid(gs) && lines == Lines(gs);
    forall i | 0 <= i < 4 ensures fs[i] == gs[i] {
      LinesTellFields(lines, fs, i);
      LinesTellFields(lines, gs, i);
    }
    assert fs == gs;
    SameTexts(a, b, fs);
  }

  lemma {:induction false} TextIs(fs: seq<Field>, a: Ref, b: Ref, k: Kind)
    requires EachOnce(fs, a) && EachOnce(fs, b) && AllValid(fs)
    ensures TextOf(a, k) == TextOf(b, k) != ""
  {
    AllKinds(fs, a, k);
    var i :| 0 <= i < 4 && fs[i].kind == k;
    assert fs[i] == FieldFor(a, k) == FieldFor(b, k);
  }

  lemma {:induction false} SameTexts(a: Ref, b: Ref, fs: seq<Field>)
    requires EachOnce(fs, a) && EachOnce(fs, b) && AllValid(fs)
    ensures a == b
  {
    TextIs(fs, a, b, ShaKind);
    TextIs(fs, a, b, SizeKind);
    TextIs(fs, a, b, TypeKind);
    TextIs(fs, a, b, NameKind);
    DecimalReadsBack(a.size);
    DecimalReadsBack(b.size);
  }

  // ----------------------------------------------------------------------------- writing

  /** The text of fields in this order, each line ended. */
  function Text(fs: seq<Field>): string {
    Joined(Lines(fs)) + "\n"
  }

  lemma {:induction false} WritableFields(fs: seq<Field>, ref: Ref)
    requires Writable(ref) && EachOnce(fs, ref)
    ensures AllValid(fs)
    ensures forall i :: 0 <= i < 4 ==> OneLine(LineOf(fs[i]))
  {
    DecimalReadsBack(ref.size);
    forall i | 0 <= i < 4 ensures ValidField(fs[i]) && OneLine(LineOf(fs[i])) {
      KindOfKey(fs[i].kind);
      assert fs[i] == FieldFor(ref, fs[i].kind);
    }
  }

  /** The fields of a writable ref, on lines in any order, are a stub saying it. */
  lemma {:induction false} AnyOrderSays(fs: seq<Field>, ref: Ref)
    requires Writable(ref) && EachOnce(fs, ref) && |Text(fs)| <= MAX_BYTES
    ensures Says(Text(fs), ref)
  {
    WritableFields(fs, ref);
    var raw, lines := Text(fs), Lines(fs);
    assert raw[|raw| - 1] == '\n' && raw[..|raw| - 1] == Joined(lines);
    assert OneLine(HEADER);
    forall i | 0 <= i < |lines| ensures OneLine(lines[i]) {
      if i > 0 {
        assert lines[i] == LineOf(fs[i - 1]);
      }
    }
    JoinedSplits(lines);
  }

  lemma {:induction false} FieldsEachOnce(ref: Ref)
    ensures EachOnce(Fields(ref), ref)
  {
  }

  lemma {:induction false} TextIsLines(ref: Ref)
    requires ref.size >= 0
    ensures Text(Fields(ref)) ==
              HEADER + "\n" + "sha256 " + ref.sha256 + "\n" + "size " + Decimal(ref.size) + "\n"
              + "type " + ref.mimetype + "\n" + "name " + ref.name + "\n"
  {
    var lines := Lines(Fields(ref));
    FiveLines(ref);
    JoinedFive(lines);
  }

  lemma {:induction false} FiveLines(ref: Ref)
    requires ref.size >= 0
    ensures Lines(Fields(ref)) ==
              [HEADER, "sha256 " + ref.sha256, "size " + Decimal(ref.size), "type " + ref.mimetype, "name " + ref.name]
  {
    assert "sha256" + " " == "sha256 " && "size" + " " == "size " && "type" + " " == "type " && "name" + " " == "name ";
    assert LineOf(FieldFor(ref, ShaKind)) == "sha256 " + ref.sha256;
    assert LineOf(FieldFor(ref, SizeKind)) == "size " + Decimal(ref.size);
    assert LineOf(FieldFor(ref, TypeKind)) == "type " + ref.mimetype;
    assert LineOf(FieldFor(ref, NameKind)) == "name " + ref.name;
  }

  lemma {:induction false} JoinedFive(lines: seq<string>)
    requires |lines| == 5
    ensures Joined(lines) == lines[0] + "\n" + (lines[1] + "\n" + (lines[2] + "\n" + (lines[3] + "\n" + lines[4])))
  {
    assert lines[1..][1..] == lines[2..] && lines[2..][1..] == lines[3..] && lines[3..][1..] == lines[4..];
    assert Joined(lines[4..]) == lines[4];
    assert Joined(lines[3..]) == lines[3] + "\n" + Joined(lines[4..]);
    assert Joined(lines[2..]) == lines[2] + "\n" + Joined(lines[3..]);
    assert Joined(lines[1..]) == lines[1] + "\n" + Joined(lines[2..]);
  }

  /** The stub of a ref: refused exactly when a reader would not read the ref back. */
  method Format(ref: Ref) returns (r: Option<string>)
    requires -INT64_LIMIT <= ref.size < INT64_LIMIT
    ensures r.Some? <==> Writable(ref) && |Text(Fields(ref))| <= MAX_BYTES
    ensures r.Some? ==> r.value == Text(Fields(ref)) && Says(r.value, ref)
  {
    if !IsSHA256(ref.sha256) || ref.size < 0 || !SingleLine(ref.mimetype) || !SingleLine(ref.name) {
      return None;
    }
    TextIsLines(ref);
    FieldsEachOnce(ref);
    var b := HEADER + "\n";
    b := b + "sha256 " + ref.sha256 + "\n";
    b := b + "size " + Decimal(ref.size) + "\n";
    b := b + "type " + ref.mimetype + "\n";
    b := b + "name " + ref.name + "\n";
    if |b| > MAX_BYTES {
      return None;
    }
    AnyOrderSays(Fields(ref), ref);
    var back := Parse(b);
    assert back == Some(ref) by {
      if back.Some? {
        SaysOne(b, back.value, ref);
      }
    }
    r := Some(b);
  }

  // --------------------------------------------------------------------- exactly which texts

  lemma {:induction false} CharInJoined(lines: seq<string>, i: nat, c: char)
    requires i < |lines| && c in lines[i]
    ensures c in Joined(lines)
    decreases |lines|
  {
    if |lines| > 1 && i > 0 {
      CharInJoined(lines[1..], i - 1, c);
    }
  }

  /** What a text without carriage returns says can be written. */
  lemma {:induction false} SaidIsWritable(raw: string, fs: seq<Field>, ref: Ref)
    requires EachOnce(fs, ref) && AllValid(fs) && Split(TrimNewline(raw)) == Lines(fs) && '\r' !in raw
    ensures Writable(ref)
  {
    var body := TrimNewline(raw);
    SplitJoins(body);
    SplitInLines(body);
    forall k: Kind, c | c in TextOf(ref, k) ensures c != '\n' && c != '\r' {
      AllKinds(fs, ref, k);
      var i :| 0 <= i < 4 && fs[i].kind == k;
      assert Lines(fs)[i + 1] == LineOf(fs[i]) && c in LineOf(fs[i]);
      CharInJoined(Lines(fs), i + 1, c);
      assert c in body;
    }
    TextIs(fs, ref, ref, ShaKind);
    TextIs(fs, ref, ref, SizeKind);
    TextIs(fs, ref, ref, TypeKind);
    TextIs(fs, ref, ref, NameKind);
    SaidValid(fs, ref);
    assert forall c :: c in ref.mimetype ==> c in TextOf(ref, TypeKind);
    assert forall c :: c in ref.name ==> c in TextOf(ref, NameKind);
  }

  lemma {:induction false} SaidValid(fs: seq<Field>, ref: Ref)
    requires EachOnce(fs, ref) && AllValid(fs)
    ensures IsSHA256(ref.sha256) && 0 <= ref.size < INT64_LIMIT
  {
    AllKinds(fs, ref, ShaKind);
    AllKinds(fs, ref, SizeKind);
    var i :| 0 <= i < 4 && fs[i].kind == ShaKind;
    var j :| 0 <= j < 4 && fs[j].kind == SizeKind;
    assert fs[i] == FieldFor(ref, ShaKind) && fs[j] == FieldFor(ref, SizeKind);
    assert ValidField(fs[i]) && ValidField(fs[j]);
    DecimalReadsBack(ref.size);
  }

  /**
   * A text ending in a newline, with no carriage return, is a stub saying ref
   * exactly when it is the header followed by the lines of ref's stub in some order.
   */
  lemma {:induction false} StubsAreOrders(raw: string, ref: Ref)
    requires raw != "" && raw[|raw| - 1] == '\n' && '\r' !in raw && |raw| <= MAX_BYTES
    ensures Says(raw, ref) <==>
              Writable(ref) && |Text(Fields(ref))| <= MAX_BYTES && exists fs :: Orders(fs, ref) && raw == Text(fs)
  {
    if Says(raw, ref) {
      SaidInOrder(raw, ref);
    }
    if fs: seq<Field> :| Writable(ref) && Orders(fs, ref) && raw == Text(fs) {
      OrdersEachOnce(fs, ref);
      AnyOrderSays(fs, ref);
    }
  }

  lemma {:induction false} SaidInOrder(raw: string, ref: Ref)
    requires raw != "" && raw[|raw| - 1] == '\n' && '\r' !in raw && Says(raw, ref)
    ensures Writable(ref) && |Text(Fields(ref))| <= MAX_BYTES && exists fs :: Orders(fs, ref) && raw == Text(fs)
  {
    var fs :| EachOnce(fs, ref) && AllValid(fs) && Split(TrimNewline(raw)) == Lines(fs);
    SaidIsWritable(raw, fs, ref);
    SaidText(raw, fs);
    EachOnceOrders(fs, ref);
    FieldsEachOnce(ref);
    SameLength(fs, Fields(ref), ref);
  }

  lemma {:induction false} SaidText(raw: string, fs: seq<Field>)
    requires raw != "" && raw[|raw| - 1] == '\n' && Split(TrimNewline(raw)) == Lines(fs)
    ensures raw == Text(fs)
  {
    SplitJoins(TrimNewline(raw));
    assert raw == raw[..|raw| - 1] + "\n";
  }

  function LineLength(ref: Ref, k: Kind): nat {
    |LineOf(FieldFor(ref, k))|
  }

  /** However the fields are ordered, the text is as long. */
  lemma {:induction false} SameLength(fs: seq<Field>, gs: seq<Field>, ref: Ref)
    requires EachOnce(fs, ref) && EachOnce(gs, ref)
    ensures |Text(fs)| == |Text(gs)|
  {
    TextLength(fs, ref);
    TextLength(gs, ref);
  }

  lemma {:induction false} TextLength(fs: seq<Field>, ref: Ref)
    requires EachOnce(fs, ref)
    ensures |Text(fs)| ==
              |HEADER| + 5 + LineLength(ref, ShaKind) + LineLength(ref, SizeKind)
              + LineLength(ref, TypeKind) + LineLength(ref, NameKind)
  {
    JoinedFive(Lines(fs));
    assert |Text(fs)| == |HEADER| + 5 + |LineOf(fs[0])| + |LineOf(fs[1])| + |LineOf(fs[2])| + |LineOf(fs[3])|;
    KindsSum(ref, fs[0].kind, fs[1].kind, fs[2].kind, fs[3].kind);
  }

  lemma {:induction false} KindsSum(ref: Ref, a: Kind, b: Kind, c: Kind, d: Kind)
    requires a != b && a != c && a != d && b != c && b != d && c != d
    ensures LineLength(ref, a) + LineLength(ref, b) + LineLength(ref, c) + LineLength(ref, d)
         == LineLength(ref, ShaKind) + LineLength(ref, SizeKind) + LineLength(ref, TypeKind) + LineLength(ref, NameKind)
  {
  }
}
