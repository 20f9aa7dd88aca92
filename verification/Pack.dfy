// Project11/person.c: the '#'-separated text form of a record.
module Pack {
  import opened Common
  import opened CStrings

  datatype Person = Person(sn: string, name: string, age: string, addr: string, phone: string, email: string)

  // ------------------------------------------------------------- pack and unpack

  // The five fields after the number.
  const OTHER_FIELDS := 5

  function Others(p: Person): seq<string> { [p.name, p.age, p.addr, p.phone, p.email] }
  function Packed(p: Person): string { p.sn + "#" + Join(Others(p)) }

  function Join(fs: seq<string>): string
    decreases |fs|
  {
    if fs == [] then "" else fs[0] + "#" + Join(fs[1..])
  }

  // n more tokens from position i on, if there are that many.
  function Tokens(s: string, i: nat, n: nat): (r: Option<seq<string>>)
    requires i <= |s|
    ensures r.Some? ==> |r.value| == n
    decreases |s| - i
  {
    if n == 0 then Some([])
    else
      var t := StrTok(s, '#', i);
      if t.Nothing? then None
      else
        var rest := Tokens(s, t.next, n - 1);
        if rest.None? then None else Some([s[t.start..t.end]] + rest.value)
  }

  // What unpack makes of a record buffer. None: a field is missing, and strcpy
  // is called with a null pointer. The first field is copied from the start of
  // the buffer, not from the first token.
  function Unpack(buf: string): Option<Person> {
    var s := CText(buf);
    var t := StrTok(s, '#', 0);
    if t.Nothing? then None
    else
      var rest := Tokens(s, t.next, OTHER_FIELDS);
      if rest.None? then None
      else Some(Person(s[..t.end], rest.value[0], rest.value[1], rest.value[2], rest.value[3], rest.value[4]))
  }

  // -------------------------------------------------------------- six fields

  // How many fields begin at or after i: characters other than '#' that do not
  // follow one.
  function FieldsFrom(s: string, i: nat): nat
    decreases |s| - i
  {
    if i >= |s| then 0
    else (if s[i] != '#' && (i == 0 || s[i - 1] == '#') then 1 else 0) + FieldsFrom(s, i + 1)
  }

  lemma {:induction false} NoFieldBetween(s: string, i: nat, e: nat)
    requires i <= e <= |s|
    requires forall j :: i <= j < e ==> s[j] == '#' || (j > 0 && s[j - 1] != '#')
    ensures FieldsFrom(s, i) == FieldsFrom(s, e)
    decreases e - i
  {
    if i < e {
      assert s[i] == '#' || (i > 0 && s[i - 1] != '#');
      NoFieldBetween(s, i + 1, e);
    }
  }

  // strtok from the start of a field, or between fields, takes exactly one.
  lemma {:induction false} TokenIsOneField(s: string, i: nat)
    requires i <= |s| && (i == 0 || i == |s| || s[i - 1] == '#')
    ensures var t := StrTok(s, '#', i);
      if t.Nothing? then FieldsFrom(s, i) == 0
      else FieldsFrom(s, i) == 1 + FieldsFrom(s, t.next) && (t.next == |s| || s[t.next - 1] == '#')
  {
    var b := Skip(s, '#', i);
    NoFieldBetween(s, i, b);
    if b < |s| {
      var e := Find(s, '#', b);
      assert b == i || s[b - 1] == '#';
      assert FieldsFrom(s, b) == 1 + FieldsFrom(s, b + 1);
      NoFieldBetween(s, b + 1, e);
      if e < |s| {
        NoFieldBetween(s, e, e + 1);
      }
    }
  }

  lemma {:induction false} TokensAreFields(s: string, i: nat, n: nat)
    requires i <= |s| && (i == 0 || i == |s| || s[i - 1] == '#')
    ensures Tokens(s, i, n).Some? <==> FieldsFrom(s, i) >= n
    decreases n
  {
    if n > 0 {
      TokenIsOneField(s, i);
      var t := StrTok(s, '#', i);
      if t.Token? {
        TokensAreFields(s, t.next, n - 1);
      }
    }
  }

  // unpack comes to its end exactly when the text has at least six fields.
  lemma {:induction false} UnpackNeedsSixFields(buf: string)
    ensures Unpack(buf).Some? <==> FieldsFrom(CText(buf), 0) >= 6
  {
    var s := CText(buf);
    TokenIsOneField(s, 0);
    var t := StrTok(s, '#', 0);
    if t.Token? {
      TokensAreFields(s, t.next, OTHER_FIELDS);
    }
  }

  // Every field but the last has a '#' behind it.
  lemma {:induction false} FieldsTakeRoom(s: string, i: nat)
    requires i <= |s|
    ensures 2 * FieldsFrom(s, i) <= |s| - i + 1
    ensures i > 0 && s[i - 1] != '#' ==> 2 * FieldsFrom(s, i) <= |s| - i
    decreases |s| - i
  {
    if i < |s| {
      FieldsTakeRoom(s, i + 1);
    }
  }

  // How many of the texts are not empty.
  function NonEmpty(fs: seq<string>): nat
    decreases |fs|
  {
    if fs == [] then 0 else (if fs[0] != "" then 1 else 0) + NonEmpty(fs[1..])
  }

  lemma {:induction false} FieldCounts(s: string, i: nat, e: nat)
    requires i <= e < |s| && s[e] == '#' && (i == 0 || s[i - 1] == '#') && forall j :: i <= j < e ==> s[j] != '#'
    ensures FieldsFrom(s, i) == (if i < e then 1 else 0) + FieldsFrom(s, e + 1)
  {
    if i < e {
      assert FieldsFrom(s, i) == 1 + FieldsFrom(s, i + 1);
      NoFieldBetween(s, i + 1, e + 1);
    } else {
      NoFieldBetween(s, e, e + 1);
    }
  }

  // Joined texts without a '#' are as many fields as are not empty.
  lemma {:induction false} JoinedFields(s: string, i: nat, fs: seq<string>)
    requires i + |Join(fs)| <= |s| && s[i..i + |Join(fs)|] == Join(fs) && (i == 0 || s[i - 1] == '#')
    requires forall k :: 0 <= k < |fs| ==> Without(fs[k], '#')
    ensures FieldsFrom(s, i) == NonEmpty(fs) + FieldsFrom(s, i + |Join(fs)|)
    decreases |fs|
  {
    if fs != [] {
      var f := fs[0];
      var e := i + |f|;
      JoinHead(fs);
      ThreeSlices(s, i, i + |Join(fs)|, f, Join(fs[1..]));
      forall j | i <= j < e
        ensures s[j] != '#'
      {
        assert s[j] == s[i..e][j - i];
      }
      FieldCounts(s, i, e);
      JoinedFields(s, e + 1, fs[1..]);
    }
  }

  // ------------------------------------------------------------- the round trip

  predicate Plain(f: string) { f != "" && Without(f, '#') }

  // A number may have leading '#' signs, but nothing else with a '#' in it.
  predicate PlainNumber(sn: string) {
    Skip(sn, '#', 0) < |sn| && forall j :: Skip(sn, '#', 0) <= j < |sn| ==> sn[j] != '#'
  }

  predicate Packable(p: Person) {
    PlainNumber(p.sn) && Plain(p.name) && Plain(p.age) && Plain(p.addr) && Plain(p.phone) && Plain(p.email)
  }

  lemma {:induction false} Slices<T>(s: seq<T>, i: nat, e: nat, a: seq<T>, b: seq<T>)
    requires i <= e <= |s| && s[i..e] == a + b
    ensures i + |a| <= e && s[i..i + |a|] == a && s[i + |a|..e] == b
  {
    var t := s[i..e];
    assert |t| == e - i && t[..|a|] == a && t[|a|..] == b;
  }

  lemma {:induction false} ThreeSlices(s: string, i: nat, e: nat, f: string, rest: string)
    requires i <= e <= |s| && s[i..e] == f + "#" + rest
    ensures i + |f| < e && s[i..i + |f|] == f && s[i + |f|] == '#' && s[i + |f| + 1..e] == rest
  {
    Slices(s, i, e, f + "#", rest);
    Slices(s, i, i + |f| + 1, f, "#");
    assert s[i + |f|..i + |f| + 1][0] == '#';
  }

  lemma {:induction false} JoinHead(fs: seq<string>)
    requires fs != []
    ensures Join(fs) == fs[0] + "#" + Join(fs[1..])
  {
  }

  // The first text in s[i..e], if the rest is joined to it by a '#'.
  lemma {:induction false} FirstField(s: string, i: nat, e: nat, f: string, h: nat, rest: string)
    requires i <= e <= |s| && s[i..e] == f + "#" + rest && h < |f|
    requires (forall j :: 0 <= j < h ==> f[j] == '#') && forall j :: h <= j < |f| ==> f[j] != '#'
    ensures StrTok(s, '#', i) == Token(i + h, i + |f|, i + |f| + 1)
    ensures i + |f| < e && s[i..i + |f|] == f && s[i + |f| + 1..e] == rest
  {
    ThreeSlices(s, i, e, f, rest);
    FieldIsToken(s, '#', i, f, h);
  }

  lemma {:induction false} TokensStep(s: string, i: nat, n: nat, f: string, rest: seq<string>)
    requires i + |f| < |s| && n > 0 && StrTok(s, '#', i) == Token(i, i + |f|, i + |f| + 1) && s[i..i + |f|] == f
    requires Tokens(s, i + |f| + 1, n - 1) == Some(rest)
    ensures Tokens(s, i, n) == Some([f] + rest)
  {
  }

  lemma {:induction false} ReadStep(s: string, i: nat, n: nat, f: string, rest: seq<string>, fs: seq<string>)
    requires i + |f| < |s| && n > 0 && StrTok(s, '#', i) == Token(i, i + |f|, i + |f| + 1) && s[i..i + |f|] == f
    requires Tokens(s, i + |f| + 1, n - 1) == Some(rest) && fs != [] && f == fs[0] && rest == fs[1..]
    ensures Tokens(s, i, n) == Some(fs)
  {
    TokensStep(s, i, n, f, rest);
    HeadAndTail(fs);
  }

  lemma {:induction false} FirstPlainField(s: string, i: nat, e: nat, f: string, rest: string)
    requires i <= e <= |s| && s[i..e] == f + "#" + rest && Plain(f)
    ensures StrTok(s, '#', i) == Token(i, i + |f|, i + |f| + 1)
    ensures i + |f| < e && s[i..i + |f|] == f && s[i + |f| + 1..e] == rest
  {
    FirstField(s, i, e, f, 0, rest);
  }

  lemma {:induction false} RestArePlain(fs: seq<string>, rest: seq<string>)
    requires fs != [] && rest == fs[1..] && forall k :: 0 <= k < |fs| ==> Plain(fs[k])
    ensures forall k :: 0 <= k < |rest| ==> Plain(rest[k])
  {
    forall k | 0 <= k < |rest|
      ensures Plain(rest[k])
    {
      assert rest[k] == fs[k + 1];
    }
  }

  // Plain fields, each closed by a '#', are read back as they are.
  lemma {:induction false} FieldsReadBack(s: string, i: nat, e: nat, fs: seq<string>, n: nat)
    requires i <= e <= |s| && s[i..e] == Join(fs)
    requires |fs| == n && forall k :: 0 <= k < |fs| ==> Plain(fs[k])
    ensures Tokens(s, i, n) == Some(fs)
    decreases n
  {
    if n > 0 {
      var f, rest := fs[0], fs[1..];
      JoinHead(fs);
      FirstPlainField(s, i, e, f, Join(rest));
      RestArePlain(fs, rest);
      FieldsReadBack(s, i + |f| + 1, e, rest, n - 1);
      ReadStep(s, i, n, f, rest, fs);
    }
  }

  lemma {:induction false} JoinNulFree(fs: seq<string>)
    requires forall k :: 0 <= k < |fs| ==> NulFree(fs[k])
    ensures NulFree(Join(fs))
    decreases |fs|
  {
    if fs != [] {
      JoinNulFree(fs[1..]);
    }
  }

  // The text of a buffer that starts with t starts with t.
  lemma {:induction false} TextStartsWith(t: string, tail: string)
    requires NulFree(t)
    ensures t <= CText(t + tail)
  {
    var b := t + tail;
    assert forall j :: 0 <= j < |t| ==> b[j] == t[j];
    assert b[..Find(b, '\0', 0)][..|t|] == t;
  }

  predicate NulFreePerson(p: Person) {
    NulFree(p.sn) && NulFree(p.name) && NulFree(p.age) && NulFree(p.addr) && NulFree(p.phone) && NulFree(p.email)
  }

  // The packed text is the start of the text in the buffer.
  lemma {:induction false} PackedText(p: Person, tail: string)
    requires NulFreePerson(p)
    ensures |CText(Packed(p) + tail)| >= |Packed(p)|
    ensures CText(Packed(p) + tail)[0..|Packed(p)|] == Packed(p)
  {
    JoinNulFree(Others(p));
    TextStartsWith(Packed(p), tail);
  }

  lemma {:induction false} PackableOthers(p: Person)
    requires Packable(p)
    ensures forall k :: 0 <= k < 5 ==> Plain(Others(p)[k])
  {
  }

  // The number, leading '#' signs and all.
  lemma {:induction false} NumberReadsBack(s: string, e: nat, sn: string, rest: string)
    requires e <= |s| && s[0..e] == sn + "#" + rest && PlainNumber(sn)
    ensures StrTok(s, '#', 0).Token? && StrTok(s, '#', 0).end == |sn| && StrTok(s, '#', 0).next == |sn| + 1
    ensures |sn| < e && s[..|sn|] == sn && s[|sn| + 1..e] == rest
  {
    FirstField(s, 0, e, sn, Skip(sn, '#', 0), rest);
  }

  lemma {:induction false} TextReadsBack(s: string, e: nat, sn: string, fs: seq<string>, rest: string, n: nat)
    requires e <= |s| && s[0..e] == sn + "#" + rest && rest == Join(fs)
    requires PlainNumber(sn) && |fs| == n && forall k :: 0 <= k < |fs| ==> Plain(fs[k])
    ensures StrTok(s, '#', 0).Token? && StrTok(s, '#', 0).end == |sn| && StrTok(s, '#', 0).next == |sn| + 1
    ensures |sn| < |s| && s[..|sn|] == sn && Tokens(s, |sn| + 1, n) == Some(fs)
  {
    NumberReadsBack(s, e, sn, rest);
    FieldsReadBack(s, |sn| + 1, e, fs, n);
  }

  lemma {:induction false} Assemble(buf: string, s: string, sn: string, fs: seq<string>, n: nat)
    requires s == CText(buf) && |sn| < |s| && s[..|sn|] == sn && |fs| == n == OTHER_FIELDS
    requires StrTok(s, '#', 0).Token? && StrTok(s, '#', 0).end == |sn| && StrTok(s, '#', 0).next == |sn| + 1
    requires Tokens(s, |sn| + 1, n) == Some(fs)
    ensures Unpack(buf) == Some(Person(sn, fs[0], fs[1], fs[2], fs[3], fs[4]))
  {
  }

  lemma {:induction false} UnpackReadsBack(buf: string, e: nat, sn: string, fs: seq<string>)
    requires e <= |CText(buf)| && CText(buf)[0..e] == sn + "#" + Join(fs)
    requires PlainNumber(sn) && |fs| == OTHER_FIELDS && forall k :: 0 <= k < |fs| ==> Plain(fs[k])
    ensures Unpack(buf) == Some(Person(sn, fs[0], fs[1], fs[2], fs[3], fs[4]))
  {
    var s := CText(buf);
    TextReadsBack(s, e, sn, fs, Join(fs), |fs|);
    Assemble(buf, s, sn, fs, |fs|);
  }

  lemma {:induction false} PackedReadsBack(p: Person, tail: string)
    requires NulFreePerson(p) && Packable(p)
    ensures Unpack(Packed(p) + tail) == Some(p)
  {
    PackedText(p, tail);
    PackableOthers(p);
    UnpackReadsBack(Packed(p) + tail, |Packed(p)|, p.sn, Others(p));
  }

  lemma {:induction false} FirstTokenIsPlainNumber(s: string)
    requires StrTok(s, '#', 0).Token?
    ensures PlainNumber(s[..StrTok(s, '#', 0).end])
  {
    var t := StrTok(s, '#', 0);
    var sn := s[..t.end];
    assert forall j :: 0 <= j < t.end ==> sn[j] == s[j];
    SkipTo(sn, '#', 0, t.start);
    forall j | t.start <= j < t.end
      ensures sn[j] != '#'
    {
      assert sn[j] == s[t.start..t.end][j - t.start];
    }
  }

  lemma {:induction false} TokensArePlain(s: string, i: nat, n: nat)
    requires i <= |s| && Tokens(s, i, n).Some?
    ensures forall k :: 0 <= k < n ==> Plain(Tokens(s, i, n).value[k])
    decreases n
  {
    if n > 0 {
      TokensArePlain(s, StrTok(s, '#', i).next, n - 1);
    }
  }

  // Whatever unpack returns could have been packed.
  lemma {:induction false} UnpackedIsPackable(buf: string)
    requires Unpack(buf).Some?
    ensures Packable(Unpack(buf).value)
  {
    FirstTokenIsPlainNumber(CText(buf));
    TokensArePlain(CText(buf), StrTok(CText(buf), '#', 0).next, OTHER_FIELDS);
  }

  // The text has sn for its first field, leading '#' signs and all.
  predicate StartsWithNumber(s: string, sn: string) {
    PlainNumber(sn) && sn <= s && (|s| == |sn| || s[|sn|] == '#')
  }

  lemma {:induction false} NumberEndsToken(s: string, sn: string)
    requires StartsWithNumber(s, sn)
    ensures StrTok(s, '#', 0).Token? && StrTok(s, '#', 0).end == |sn|
  {
    var h := Skip(sn, '#', 0);
    assert forall j :: 0 <= j < |sn| ==> s[j] == sn[j];
    SkipTo(s, '#', 0, h);
    if |s| == |sn| {
      FindNone(s, '#', h);
    } else {
      FindAt(s, '#', h, |sn|);
    }
  }

  // So it has one at most, and that is the number unpack returns.
  lemma {:induction false} OneNumber(s: string, a: string, b: string)
    requires StartsWithNumber(s, a) && StartsWithNumber(s, b)
    ensures a == b
  {
    NumberEndsToken(s, a);
    NumberEndsToken(s, b);
  }

  lemma {:induction false} UnpackedNumber(buf: string, sn: string)
    requires Unpack(buf).Some?
    ensures Unpack(buf).value.sn == sn <==> StartsWithNumber(CText(buf), sn)
  {
    var s := CText(buf);
    FirstTokenIsPlainNumber(s);
    if StartsWithNumber(s, sn) {
      NumberEndsToken(s, sn);
    }
  }

  lemma {:induction false} PackedStartsWithNumber(p: Person, tail: string)
    requires NulFreePerson(p)
    ensures StartsWithNumber(CText(Packed(p) + tail), p.sn) <==> PlainNumber(p.sn)
  {
    var s := CText(Packed(p) + tail);
    PackedText(p, tail);
    assert s[0..|Packed(p)|] == p.sn + "#" + Join(Others(p));
    ThreeSlices(s, 0, |Packed(p)|, p.sn, Join(Others(p)));
  }

  // unpack gives a packed person back, whatever bytes follow it in the record,
  // exactly when the person's fields are non-empty and free of '#'.
  lemma {:induction false} UnpackUndoesPackExactlyWhenPackable(p: Person, tail: string)
    requires NulFreePerson(p)
    ensures Unpack(Packed(p) + tail) == Some(p) <==> Packable(p)
  {
    if Packable(p) {
      PackedReadsBack(p, tail);
    } else if Unpack(Packed(p) + tail) == Some(p) {
      UnpackedIsPackable(Packed(p) + tail);
    }
  }

  // ----------------------------------------------------------------- in place

  // One field after the first: the next token, copied out.
  method CopyField(temp: array<char>, from: nat, ghost s: string) returns (field: Option<string>, next: nat)
    requires NulFree(s) && from <= |s| < temp.Length && temp[|s|] == '\0'
    requires forall j :: from <= j < |s| ==> temp[j] == s[j]
    modifies temp
    ensures StrTok(s, '#', from).Nothing? <==> field.None?
    ensures field.Some? ==> next == StrTok(s, '#', from).next && field.value == s[StrTok(s, '#', from).start..StrTok(s, '#', from).end]
    ensures field.Some? ==> temp[|s|] == '\0' && forall j :: next <= j < |s| ==> temp[j] == s[j]
  {
    ghost var t := StrTok(s, '#', from);
    var start;
    start, next := StrTokIn(temp, '#', from, s);
    if start == -1 {
      return None, next;
    }
    forall j | t.start <= j < t.end
      ensures temp[j] == s[j]
    {
      assert temp[j] == temp[..][j];
    }
    var f := StrCpy(temp, start, t.end);
    assert f == s[t.start..t.end];
    field := Some(f);
  }

  // n fields, one after the other; unpack writes its five calls out.
  method CopyFields(temp: array<char>, from: nat, n: nat, ghost s: string) returns (fs: Option<seq<string>>)
    requires NulFree(s) && from <= |s| < temp.Length && temp[|s|] == '\0'
    requires forall j :: from <= j < |s| ==> temp[j] == s[j]
    modifies temp
    ensures fs == Tokens(s, from, n)
    decreases n
  {
    if n == 0 {
      return Some([]);
    }
    var f, next := CopyField(temp, from, s);
    if f.None? {
      return None;
    }
    var rest := CopyFields(temp, next, n - 1, s);
    fs := if rest.None? then None else Some([f.value] + rest.value);
  }

  // strncpy into a zeroed buffer that ends in a NUL of its own.
  method CopyRecord(recordbuf: array<char>) returns (temp: array<char>)
    ensures fresh(temp) && temp.Length == recordbuf.Length + 1
    ensures |CText(recordbuf[..])| <= recordbuf.Length && temp[|CText(recordbuf[..])|] == '\0'
    ensures forall j :: 0 <= j < |CText(recordbuf[..])| ==> temp[j] == CText(recordbuf[..])[j]
  {
    temp := new char[recordbuf.Length + 1](_ => '\0');
    var i := 0;
    while i < recordbuf.Length && recordbuf[i] != '\0'
      invariant 0 <= i <= recordbuf.Length
      invariant forall j :: 0 <= j < i ==> recordbuf[j] != '\0' && temp[j] == recordbuf[j]
      invariant forall j :: i <= j < temp.Length ==> temp[j] == '\0'
    {
      temp[i] := recordbuf[i];
      i := i + 1;
    }
    if i < recordbuf.Length {
      FindAt(recordbuf[..], '\0', 0, i);
    } else {
      FindNone(recordbuf[..], '\0', 0);
    }
  }

  method UnpackRecord(recordbuf: array<char>) returns (p: Option<Person>)
    ensures p == Unpack(recordbuf[..])
  {
    var temp := CopyRecord(recordbuf);
    ghost var s := CText(recordbuf[..]);
    ghost var t := StrTok(s, '#', 0);
    var start, next := StrTokIn(temp, '#', 0, s);
    if start == -1 {
      return None;
    }
    forall j | 0 <= j < |s| && j != t.end
      ensures temp[j] == s[j]
    {
      assert temp[j] == temp[..][j];
    }
    assert temp[t.end] == temp[..][t.end];
    var sn := StrCpy(temp, 0, t.end);
    assert sn == s[..t.end];
    assert temp[|s|] == temp[..][|s|];
    var rest := CopyFields(temp, next, OTHER_FIELDS, s);
    if rest.None? {
      return None;
    }
    p := Some(Person(sn, rest.value[0], rest.value[1], rest.value[2], rest.value[3], rest.value[4]));
  }

  // strcat, twelve times.
  method PackRecord(recordbuf: string, p: Person) returns (r: string)
    ensures r == recordbuf + Packed(p)
    ensures r == recordbuf + (p.sn + "#" + (p.name + "#" + p.age + "#" + p.addr + "#" + p.phone + "#" + p.email + "#"))
  {
    r := recordbuf + p.sn + "#";
    r := r + p.name + "#";
    r := r + p.age + "#";
    r := r + p.addr + "#";
    r := r + p.phone + "#";
    r := r + p.email + "#";
    JoinFive(p);
    assert r == recordbuf + (p.sn + "#" + (p.name + "#" + p.age + "#" + p.addr + "#" + p.phone + "#" + p.email + "#"));
  }

  lemma {:induction false} JoinFive(p: Person)
    ensures Join(Others(p)) == p.name + "#" + p.age + "#" + p.addr + "#" + p.phone + "#" + p.email + "#"
  {
    var fs := Others(p);
    JoinHead(fs);
    JoinHead(fs[1..]);
    JoinHead(fs[2..]);
    JoinHead(fs[3..]);
    JoinHead(fs[4..]);
    assert fs[1..][1..] == fs[2..] && fs[2..][1..] == fs[3..] && fs[3..][1..] == fs[4..] && fs[4..][1..] == [];
  }
}
