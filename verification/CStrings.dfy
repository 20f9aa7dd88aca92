// The parts of the C string library that the record file and the cron programs
// use, on texts and in place on a buffer.
module CStrings {
  predicate Without(s: string, c: char) { forall j :: 0 <= j < |s| ==> s[j] != c }
  predicate NulFree(s: string) { Without(s, '\0') }

  // Where the first c at or after i is, or the end.
  function Find(s: string, c: char, i: nat): (k: nat)
    requires i <= |s|
    ensures i <= k <= |s| && (k < |s| ==> s[k] == c)
    ensures forall j :: i <= j < k ==> s[j] != c
    decreases |s| - i
  {
    if i == |s| || s[i] == c then i else Find(s, c, i + 1)
  }

  function Skip(s: string, d: char, i: nat): (k: nat)
    requires i <= |s|
    ensures i <= k <= |s| && (k < |s| ==> s[k] != d)
    ensures forall j :: i <= j < k ==> s[j] == d
    decreases |s| - i
  {
    if i < |s| && s[i] == d then Skip(s, d, i + 1) else i
  }

  // What strtok(.., d) finds from position i on: the token s[start..end] and
  // where the next call goes on, or no token at all.
  datatype Found = Nothing | Token(start: nat, end: nat, next: nat)

  function StrTok(s: string, d: char, i: nat): (t: Found)
    requires i <= |s|
    ensures t.Nothing? ==> forall j :: i <= j < |s| ==> s[j] == d
    ensures t.Token? ==> i <= t.start < t.end <= t.next <= |s| && Without(s[t.start..t.end], d)
    ensures t.Token? ==> forall j :: i <= j < t.start ==> s[j] == d
    ensures t.Token? ==> if t.end == |s| then t.next == |s| else s[t.end] == d && t.next == t.end + 1
  {
    var b := Skip(s, d, i);
    if b == |s| then Nothing
    else
      var e := Find(s, d, b);
      Token(b, e, if e < |s| then e + 1 else e)
  }

  // The C string at the start of a buffer.
  function CText(buf: string): (s: string)
    ensures NulFree(s)
  {
    buf[..Find(buf, '\0', 0)]
  }

  // It ends where the first NUL is.
  lemma {:induction false} CTextEndsAtNul(buf: string)
    ensures CText(buf) <= buf && (|CText(buf)| < |buf| ==> buf[|CText(buf)|] == '\0')
  {
  }

  // A text f at position i, closed by a d, and with h leading d signs, is
  // read as one token.
  lemma {:induction false} FieldIsToken(s: string, d: char, i: nat, f: string, h: nat)
    requires i + |f| < |s| && h < |f| && (forall j :: 0 <= j < h ==> f[j] == d)
    requires forall j :: h <= j < |f| ==> f[j] != d
    requires s[i..i + |f|] == f && s[i + |f|] == d
    ensures StrTok(s, d, i) == Token(i + h, i + |f|, i + |f| + 1)
  {
    forall j | i <= j < i + |f|
      ensures s[j] == f[j - i]
    {
      assert s[i..i + |f|][j - i] == f[j - i];
    }
    SkipTo(s, d, i, i + h);
    FindAt(s, d, i + h, i + |f|);
  }

  lemma {:induction false} SkipTo(s: string, d: char, i: nat, b: nat)
    requires i <= b < |s| && s[b] != d && forall j :: i <= j < b ==> s[j] == d
    ensures Skip(s, d, i) == b
    decreases b - i
  {
    if i < b {
      SkipTo(s, d, i + 1, b);
    }
  }

  lemma {:induction false} FindAt(s: string, c: char, i: nat, e: nat)
    requires i <= e < |s| && s[e] == c && forall j :: i <= j < e ==> s[j] != c
    ensures Find(s, c, i) == e
    decreases e - i
  {
    if i < e {
      FindAt(s, c, i + 1, e);
    }
  }

  // strtok on the text s, of which the part from position from on is still in
  // the buffer: -1 for no token, or else the token's position, closed by a NUL
  // put where the d was.
  method StrTokIn(temp: array<char>, d: char, from: nat, ghost s: string) returns (start: int, next: nat)
    requires d != '\0' && NulFree(s) && from <= |s| < temp.Length && temp[|s|] == '\0'
    requires forall j :: from <= j < |s| ==> temp[j] == s[j]
    modifies temp
    ensures StrTok(s, d, from).Nothing? ==> start == -1 && temp[..] == old(temp[..])
    ensures StrTok(s, d, from).Token? ==>
      && start == StrTok(s, d, from).start && next == StrTok(s, d, from).next
      && temp[..] == old(temp[..])[StrTok(s, d, from).end := '\0']
  {
    var b := from;
    while temp[b] == d
      invariant from <= b <= |s| && forall j :: from <= j < b ==> s[j] == d
      decreases |s| - b
    {
      b := b + 1;
    }
    if temp[b] == '\0' {
      SkipToEnd(s, d, from);
      return -1, b;
    }
    SkipTo(s, d, from, b);
    var e := b;
    while temp[e] != d && temp[e] != '\0'
      invariant b <= e <= |s| && forall j :: b <= j < e ==> s[j] != d
      decreases |s| - e
    {
      e := e + 1;
    }
    if temp[e] == '\0' {
      FindNone(s, d, b);
      assert temp[..][e := '\0'] == temp[..];
      return b, e;
    }
    FindAt(s, d, b, e);
    temp[e] := '\0';
    return b, e + 1;
  }

  lemma {:induction false} SkipToEnd(s: string, d: char, i: nat)
    requires i <= |s| && forall j :: i <= j < |s| ==> s[j] == d
    ensures Skip(s, d, i) == |s|
    decreases |s| - i
  {
    if i < |s| {
      SkipToEnd(s, d, i + 1);
    }
  }

  lemma {:induction false} FindNone(s: string, c: char, i: nat)
    requires i <= |s| && forall j :: i <= j < |s| ==> s[j] != c
    ensures Find(s, c, i) == |s|
    decreases |s| - i
  {
    if i < |s| {
      FindNone(s, c, i + 1);
    }
  }

  // strcpy from position i of the buffer, where the text ends at k.
  method StrCpy(buf: array<char>, i: nat, ghost k: nat) returns (t: string)
    requires i <= k < buf.Length && buf[k] == '\0' && forall j :: i <= j < k ==> buf[j] != '\0'
    ensures t == buf[i..k]
  {
    t := "";
    var j := i;
    while buf[j] != '\0'
      invariant i <= j <= k && t == buf[i..j]
      decreases k - j
    {
      t := t + [buf[j]];
      j := j + 1;
    }
  }
}
