/** mdb_dump and mdb_load: the printer, and the reader with its growing buffer
    and in-place decoding. */
module DumpLoad {
  import opened ByteValues
  import opened Options
  import opened TextCodec

  datatype Pair = Pair(key: seq<byte>, data: seq<byte>)

  // -------------------------------------------------------------- the printer

  function Line(v: seq<byte>, print_: bool, isprint: byte -> bool): seq<byte> {
    [SPACE] + Encoded(v, print_, isprint) + [NL]
  }

  /** text of mdb_dump. */
  method PrintText(out: seq<byte>, v: seq<byte>, isprint: byte -> bool) returns (out': seq<byte>)
    ensures out' == out + Line(v, true, isprint)
  {
    hide Hex;
    var line := [];
    var c := 0;
    while c < |v|
      invariant 0 <= c <= |v|
      invariant line + Text(v[c..], isprint) == Text(v, isprint)
    {
      assert v[c..][1..] == v[c + 1..];
      ghost var before := line;
      if isprint(v[c]) {
        if v[c] == BACKSLASH {
          line := line + [BACKSLASH];
        }
        line := line + [v[c]];
      } else {
        line := line + [BACKSLASH];
        line := line + Hex(v[c]);
      }
      Regroup(before, TextOf(v[c], isprint), Text(v[c + 1..], isprint), line);
      c := c + 1;
    }
    assert v[c..] == [];
    out' := out + ([SPACE] + line + [NL]);
  }

  lemma Regroup(a: seq<byte>, b: seq<byte>, c: seq<byte>, d: seq<byte>)
    requires d == a + b
    ensures a + (b + c) == d + c
  {
  }

  /** byte of mdb_dump. */
  method PrintBytes(out: seq<byte>, v: seq<byte>, ghost isprint: byte -> bool) returns (out': seq<byte>)
    ensures out' == out + Line(v, false, isprint)
  {
    hide Hex;
    var line := [];
    var c := 0;
    while c < |v|
      invariant 0 <= c <= |v|
      invariant line + Bytes(v[c..]) == Bytes(v)
    {
      assert v[c..][1..] == v[c + 1..];
      Regroup(line, Hex(v[c]), Bytes(v[c + 1..]), line + Hex(v[c]));
      line := line + Hex(v[c]);
      c := c + 1;
    }
    assert v[c..] == [];
    out' := out + ([SPACE] + line + [NL]);
  }

  /** "DATA=END" */
  const DATA_END: seq<byte> := [68, 65, 84, 65, 61, 69, 78, 68]

  /** The lines of the records, and the line that ends them. */
  function Records(pairs: seq<Pair>, print_: bool, isprint: byte -> bool): seq<byte> {
    if |pairs| == 0 then DATA_END + [NL]
    else Line(pairs[0].key, print_, isprint) + Line(pairs[0].data, print_, isprint)
         + Records(pairs[1..], print_, isprint)
  }

  /** dumpit, from the first record on. */
  method Dump(pairs: seq<Pair>, print_: bool, isprint: byte -> bool) returns (out: seq<byte>)
    ensures out == Records(pairs, print_, isprint)
  {
    hide Line;
    out := [];
    var i := 0;
    while i < |pairs|
      invariant 0 <= i <= |pairs|
      invariant out + Records(pairs[i..], print_, isprint) == Records(pairs, print_, isprint)
    {
      assert pairs[i..][1..] == pairs[i + 1..];
      ghost var before, lines := out, Line(pairs[i].key, print_, isprint) + Line(pairs[i].data, print_, isprint);
      if print_ {
        out := PrintText(out, pairs[i].key, isprint);
        out := PrintText(out, pairs[i].data, isprint);
      } else {
        out := PrintBytes(out, pairs[i].key, isprint);
        out := PrintBytes(out, pairs[i].data, isprint);
      }
      assert out == before + lines;
      Regroup(before, lines, Records(pairs[i + 1..], print_, isprint), out);
      i := i + 1;
    }
    assert pairs[i..] == [];
    out := out + DATA_END + [NL];
  }

  // --------------------------------------------------------------- the reader

  /** The index of the first line end, or the length. */
  function FirstNl(s: seq<byte>): (i: nat)
    ensures i <= |s| && NL !in s[..i] && (i < |s| ==> s[i] == NL)
  {
    if |s| == 0 || s[0] == NL then 0 else
      var i := 1 + FirstNl(s[1..]);
      assert s[..i] == [s[0]] + s[1..][..i - 1];
      i
  }

  lemma {:induction false} FirstNlIs(s: seq<byte>, i: nat)
    requires i <= |s| && NL !in s[..i] && (i < |s| ==> s[i] == NL)
    ensures FirstNl(s) == i
  {
    if |s| > 0 {
      assert i > 0 ==> s[..i][0] == s[0] && s[1..][..i - 1] == s[..i][1..];
      if s[0] != NL {
        FirstNlIs(s[1..], i - 1);
      }
    }
  }

  class Stdin {
    const data: seq<byte>
    var pos: nat

    constructor (data: seq<byte>)
      ensures this.data == data && pos == 0
    {
      this.data, pos := data, 0;
    }

    ghost predicate Valid()
      reads this
    {
      pos <= |data| && 0 !in data
    }

    function Rest(): seq<byte>
      requires pos <= |data|
      reads this
    {
      data[pos..]
    }

    /** How many bytes fgets takes: up to a line end, and no more than room. */
    static function Taken(s: seq<byte>, room: nat): (k: nat)
      ensures k <= |s| && k <= room
    {
      var i := FirstNl(s);
      if i < |s| && i < room then i + 1 else if |s| <= room then |s| else room
    }

    /** fgets of n bytes into the buffer at off; the bytes hold no NUL, so that
        strlen gives the number read. */
    method Fgets(mem: array<byte>, off: nat, n: nat) returns (k: nat)
      requires Valid() && n > 1 && off + n <= mem.Length
      modifies this`pos, mem
      ensures Valid() && pos == old(pos) + k && k == Taken(old(Rest()), n - 1)
      ensures forall i :: 0 <= i < off ==> mem[i] == old(mem[i])
      ensures forall i :: 0 <= i < k ==> mem[off + i] == old(Rest())[i]
      ensures k > 0 ==> mem[off + k] == 0
    {
      ghost var rest := Rest();
      k := 0;
      var stop := false;
      while !stop && k < n - 1 && pos < |data|
        invariant k <= n - 1 && pos == old(pos) + k <= |data|
        invariant forall i :: 0 <= i < off ==> mem[i] == old(mem[i])
        invariant forall i :: 0 <= i < k ==> mem[off + i] == rest[i]
        invariant stop ==> k > 0 && rest[k - 1] == NL && NL !in rest[..k - 1]
        invariant !stop ==> NL !in rest[..k]
      {
        var c := data[pos];
        mem[off + k] := c;
        assert c == rest[k] && rest[..k + 1] == rest[..k] + [rest[k]];
        pos, k, stop := pos + 1, k + 1, c == NL;
      }
      TakenIs(rest, n - 1, k, stop);
      if k > 0 {
        mem[off + k] := 0;
      }
    }
  }

  lemma TakenIs(s: seq<byte>, room: nat, k: nat, stop: bool)
    requires k <= |s| && k <= room
    requires if stop then k > 0 && s[k - 1] == NL && NL !in s[..k - 1] else NL !in s[..k] && (k == room || k == |s|)
    ensures Stdin.Taken(s, room) == k
  {
    if stop {
      FirstNlIs(s, k - 1);
    } else {
      forall i | 0 <= i < k ensures s[i] != NL {
        assert s[..k][i] == s[i];
      }
    }
  }

  /** One value of readline, the end of the data, or a failure, which sets Eof. */
  datatype Read = Value(v: seq<byte>) | EndOfData | BadEnd

  /** The loop of readline over a printed line, in place: the value is
      gathered at the front of the buffer. */
  method DecodeText(mem: array<byte>, len: nat) returns (ok: bool, n: nat)
    requires len < mem.Length && mem[len] == 0
    modifies mem
    ensures var r := ParseText(old(mem[..len])); ok == r.Some? && (ok ==> n <= mem.Length && mem[..n] == r.value)
  {
    hide Unhex, IsXDigit, ParseText, Prefixed;
    ghost var line := mem[..len];
    var c1, c2 := 0, 0;
    PrefixedFirst(ParseText(line));
    assert line[0..] == line && mem[..0] == [];
    while c2 < len
      invariant c1 <= c2 <= len
      invariant mem[c2..len] == line[c2..] && mem[len] == 0
      invariant ParseText(line) == Prefixed(mem[..c1], ParseText(line[c2..]))
    {
      ghost var front, from := mem[..c1], c2;
      assert forall i :: c2 <= i < len ==> mem[i] == line[i];
      ParseTextStep(line, c2);
      if mem[c2] == BACKSLASH {
        if mem[c2 + 1] == BACKSLASH {
          mem[c1] := mem[c2];
        } else {
          if c2 + 3 > len || !IsXDigit(mem[c2 + 1]) || !IsXDigit(mem[c2 + 2]) {
            PrefixedNone(front);
            return false, 0;
          }
          c2 := c2 + 1;
          mem[c1] := Unhex(mem[c2], mem[c2 + 1]);
        }
        c1, c2 := c1 + 1, c2 + 2;
      } else {
        mem[c1] := mem[c2];
        c1, c2 := c1 + 1, c2 + 1;
      }
      assert mem[..c1] == front + [mem[c1 - 1]];
      PrefixedMore(front, mem[c1 - 1], ParseText(line[c2..]));
    }
    assert line[c2..] == [];
    PrefixedLast(mem[..c1]);
    return true, c1;
  }

  /** One turn of the parser, at index i of the line. */
  lemma ParseTextStep(line: seq<byte>, i: nat)
    requires i < |line|
    ensures var rest := ParseText(line[i..]);
            if line[i] != BACKSLASH then rest == Cons(line[i], ParseText(line[i + 1..]))
            else if i + 1 < |line| && line[i + 1] == BACKSLASH then rest == Cons(BACKSLASH, ParseText(line[i + 2..]))
            else if i + 3 > |line| || !IsXDigit(line[i + 1]) || !IsXDigit(line[i + 2]) then rest == None
            else rest == Cons(Unhex(line[i + 1], line[i + 2]), ParseText(line[i + 3..]))
  {
    hide Unhex, IsXDigit;
    var s := line[i..];
    assert s[1..] == line[i + 1..];
    assert i + 2 <= |line| ==> s[2..] == line[i + 2..];
    assert i + 3 <= |line| ==> s[3..] == line[i + 3..];
  }

  lemma PrefixedFirst(rest: Option<seq<byte>>)
    ensures Prefixed([], rest) == rest
  {
    if rest.Some? { assert [] + rest.value == rest.value; }
  }

  lemma PrefixedNone(front: seq<byte>)
    ensures Prefixed(front, None) == None
  {
  }

  lemma PrefixedLast(front: seq<byte>)
    ensures ParseText([]) == ParseBytes([]) == Some([]) && Prefixed(front, Some([])) == Some(front)
  {
    assert front + [] == front;
  }

  function Prefixed(front: seq<byte>, rest: Option<seq<byte>>): Option<seq<byte>> {
    if rest.None? then None else Some(front + rest.value)
  }

  lemma PrefixedMore(front: seq<byte>, b: byte, rest: Option<seq<byte>>)
    ensures Prefixed(front, Cons(b, rest)) == Prefixed(front + [b], rest)
  {
    if rest.Some? {
      assert front + ([b] + rest.value) == front + [b] + rest.value;
    }
  }

  /** The loop of readline over a line of digits. */
  method DecodeBytes(mem: array<byte>, len: nat) returns (ok: bool, n: nat)
    requires len < mem.Length
    modifies mem
    ensures var r := ParseBytes(old(mem[..len])); ok == r.Some? && (ok ==> n <= mem.Length && mem[..n] == r.value)
  {
    hide Unhex, IsXDigit, ParseBytes, Prefixed;
    ghost var line := mem[..len];
    if len % 2 == 1 {
      OddFails(line);
      return false, 0;
    }
    var c1, c2 := 0, 0;
    PrefixedFirst(ParseBytes(line));
    assert line[0..] == line && mem[..0] == [];
    while c2 < len
      invariant c1 <= c2 <= len && c2 % 2 == 0
      invariant mem[c2..len] == line[c2..]
      invariant ParseBytes(line) == Prefixed(mem[..c1], ParseBytes(line[c2..]))
    {
      ghost var front := mem[..c1];
      assert forall i :: c2 <= i < len ==> mem[i] == line[i];
      ParseBytesStep(line, c2);
      if !IsXDigit(mem[c2]) || !IsXDigit(mem[c2 + 1]) {
        PrefixedNone(front);
        return false, 0;
      }
      mem[c1] := Unhex(mem[c2], mem[c2 + 1]);
      c1, c2 := c1 + 1, c2 + 2;
      assert mem[..c1] == front + [mem[c1 - 1]];
      PrefixedMore(front, mem[c1 - 1], ParseBytes(line[c2..]));
    }
    assert line[c2..] == [];
    PrefixedLast(mem[..c1]);
    return true, c1;
  }

  lemma ParseBytesStep(line: seq<byte>, i: nat)
    requires i + 1 < |line|
    ensures ParseBytes(line[i..]) ==
      if !IsXDigit(line[i]) || !IsXDigit(line[i + 1]) then None
      else Cons(Unhex(line[i], line[i + 1]), ParseBytes(line[i + 2..]))
  {
    hide Unhex, IsXDigit;
    assert line[i..][2..] == line[i + 2..];
  }

  lemma {:induction false} OddFails(s: seq<byte>)
    requires |s| % 2 == 1
    ensures ParseBytes(s) == None
  {
    if |s| > 1 {
      OddFails(s[2..]);
    }
  }

  /** The buffer that readline grows: mv_data, of mv_size bytes. */
  class Buffer {
    var mem: array<byte>

    constructor (size: nat)
      ensures mem.Length == size && fresh(mem)
    {
      mem := new byte[size];
    }

    /** realloc to twice the size. */
    method Double()
      modifies this
      ensures fresh(mem) && mem.Length == 2 * old(mem.Length)
      ensures forall i :: 0 <= i < old(mem.Length) ==> mem[i] == old(mem[i])
    {
      var bigger := new byte[2 * mem.Length];
      forall i | 0 <= i < mem.Length {
        bigger[i] := mem[i];
      }
      mem := bigger;
    }
  }

  /** The first l2 bytes of s are a line, or the beginning of one. */
  ghost predicate SoFar(s: seq<byte>, l2: nat) {
    && 0 < l2 <= |s|
    && if s[l2 - 1] == NL then FirstNl(s) == l2 - 1 else NL !in s[..l2]
  }

  lemma TakenSome(s: seq<byte>, from: nat, room: nat)
    requires from <= |s| && NL !in s[..from] && Stdin.Taken(s[from..], room) > 0
    ensures var k := Stdin.Taken(s[from..], room); from + k <= |s| && SoFar(s, from + k)
  {
    hide FirstNl;
    var t := s[from..];
    var k := Stdin.Taken(t, room);
    SplitFree(s, from, k - 1);
    assert t[k - 1] == s[from + k - 1];
    if t[k - 1] == NL {
      FirstNlIs(s, from + k - 1);
    } else {
      SplitFree(s, from, k);
    }
  }

  /** What one more fgets adds to a line. */
  lemma TakenMore(s: seq<byte>, from: nat, room: nat)
    requires room > 0 && (from == 0 || (SoFar(s, from) && s[from - 1] != NL))
    ensures from <= |s|
    ensures var k := Stdin.Taken(s[from..], room);
            && (k == 0 <==> from == |s|)
            && (k == 0 ==> FirstNl(s) == |s|)
            && (k > 0 ==> from + k <= |s| && SoFar(s, from + k))
  {
    hide FirstNl;
    var t := s[from..];
    var k := Stdin.Taken(t, room);
    if k > 0 {
      TakenSome(s, from, room);
    } else {
      assert s[..from] == s;
      FirstNlIs(s, |s|);
    }
  }

  lemma LineEnd(s: seq<byte>, l2: nat)
    requires SoFar(s, l2)
    ensures 0 < l2 <= |s| && (s[l2 - 1] == NL ==> FirstNl(s) == l2 - 1)
  {
  }

  lemma SplitFree(s: seq<byte>, from: nat, k: nat)
    requires from + k <= |s| && NL !in s[..from] && k <= FirstNl(s[from..])
    ensures NL !in s[..from + k]
  {
    var t, u := s[from..], s[..from + k];
    forall i | 0 <= i < |u| ensures u[i] != NL {
      if i < from {
        assert s[..from][i] == s[i];
      } else {
        assert t[..FirstNl(t)][i - from] == s[i];
      }
    }
  }

  /** One turn of the loop below: twice the buffer, and another fgets. */
  method GatherMore(stdin: Stdin, buf: Buffer, l2: nat, ghost rest: seq<byte>, ghost p0: nat) returns (len: nat)
    requires stdin.Valid() && 0 < l2 < buf.mem.Length && SoFar(rest, l2) && rest[l2 - 1] != NL
    requires p0 <= |stdin.data| && rest == stdin.data[p0..] && stdin.pos == p0 + l2
    requires forall i :: 0 <= i < l2 ==> buf.mem[i] == rest[i]
    modifies stdin`pos, buf, buf.mem
    ensures stdin.Valid() && fresh(buf.mem) && buf.mem.Length > old(buf.mem.Length)
    ensures stdin.pos == old(stdin.pos) + len && l2 + len <= |rest|
    ensures if len == 0 then FirstNl(rest) == |rest| else SoFar(rest, l2 + len) && l2 + len < buf.mem.Length
    ensures forall i :: 0 <= i < l2 + len ==> buf.mem[i] == rest[i]
  {
    hide FirstNl, Stdin.Taken, SoFar;
    assert stdin.Rest() == rest[l2..];
    var size := buf.mem.Length;
    TakenMore(rest, l2, size);
    buf.Double();
    len := stdin.Fgets(buf.mem, l2, size + 1);
    forall i | l2 <= i < l2 + len ensures buf.mem[i] == rest[i] {
      assert buf.mem[l2 + (i - l2)] == rest[l2..][i - l2];
    }
  }

  /** The part of readline that gets a whole line into the buffer, which it
      doubles as often as needed. */
  method Gather(stdin: Stdin, buf: Buffer) returns (ok: bool, l2: nat)
    requires stdin.Valid() && buf.mem.Length > 1
    modifies stdin`pos, buf, buf.mem
    ensures stdin.Valid() && (buf.mem == old(buf.mem) || fresh(buf.mem)) && buf.mem.Length >= old(buf.mem.Length)
    ensures var rest := old(stdin.Rest());
            var i := FirstNl(rest);
            && (ok <==> i < |rest|)
            && (ok ==>
                  && l2 == i + 1 < buf.mem.Length && stdin.pos == old(stdin.pos) + l2
                  && forall m :: 0 <= m < l2 ==> buf.mem[m] == rest[m])
  {
    hide FirstNl, Stdin.Taken, SoFar;
    ghost var rest := stdin.Rest();
    TakenMore(rest, 0, buf.mem.Length - 1);
    assert rest[0..] == rest;
    var len := stdin.Fgets(buf.mem, 0, buf.mem.Length);
    if len == 0 {
      return false, 0;
    }
    var c1 := 0;
    l2 := len;
    while buf.mem[c1 + len - 1] != NL
      invariant stdin.Valid() && (buf.mem == old(buf.mem) || fresh(buf.mem)) && buf.mem.Length >= old(buf.mem.Length)
      invariant 0 < len && c1 + len == l2 < buf.mem.Length && SoFar(rest, l2)
      invariant stdin.pos == old(stdin.pos) + l2
      invariant forall i :: 0 <= i < l2 ==> buf.mem[i] == rest[i]
      decreases |stdin.data| - stdin.pos
    {
      c1 := l2;
      len := GatherMore(stdin, buf, l2, rest, old(stdin.pos));
      if len == 0 {
        return false, 0;
      }
      l2 := l2 + len;
    }
    ok := true;
    LineEnd(rest, l2);
  }

  predicate IsEnd(s: seq<byte>) { |s| >= 8 && s[..8] == DATA_END }

  /** readline of mdb_load, for input with leading spaces and a last line. */
  method Readline(stdin: Stdin, buf: Buffer, print_: bool) returns (r: Read)
    requires stdin.Valid() && buf.mem.Length >= 9
    modifies stdin`pos, buf, buf.mem
    ensures stdin.Valid() && (buf.mem == old(buf.mem) || fresh(buf.mem)) && buf.mem.Length >= old(buf.mem.Length)
    ensures var rest := old(stdin.Rest());
            && (r.EndOfData? <==> IsEnd(rest))
            && (r.EndOfData? && |rest| > 8 && rest[8] == NL ==> stdin.pos == old(stdin.pos) + 9)
            && (r.Value? ==> |rest| > 0 && rest[0] == SPACE)
            && (|rest| > 0 && rest[0] == SPACE ==>
                  var i := FirstNl(rest[1..]);
                  if i + 1 < |rest| && Parsed(rest[1..i + 1], print_).Some? then
                    r == Value(Parsed(rest[1..i + 1], print_).value) && stdin.pos == old(stdin.pos) + i + 2
                  else r == BadEnd)
  {
    hide FirstNl, Stdin.Taken, Parsed, IsEnd;
    ghost var rest := stdin.Rest();
    EndBegins(rest);
    if stdin.pos == |stdin.data| {
      return BadEnd;
    }
    var c := stdin.data[stdin.pos];
    stdin.pos := stdin.pos + 1;
    assert stdin.Rest() == rest[1..];
    if c != SPACE {
      assert [c] + rest[1..] == rest;
      r := ReadEnd(stdin, buf.mem, c);
    } else {
      r := ReadValue(stdin, buf, print_);
      ghost var i := FirstNl(rest[1..]);
      assert i + 1 < |rest| ==> rest[1..][..i] == rest[1..i + 1];
    }
  }

  lemma EndBegins(s: seq<byte>)
    ensures IsEnd(s) ==> |s| > 0 && s[0] == 68
  {
    if IsEnd(s) {
      assert s[..8][0] == s[0];
    }
  }

  /** A line that does not begin with a space: it should end the data. */
  method ReadEnd(stdin: Stdin, mem: array<byte>, c: byte) returns (r: Read)
    requires stdin.Valid() && mem.Length >= 9
    modifies stdin`pos, mem
    ensures stdin.Valid() && !r.Value?
    ensures var line := [c] + old(stdin.Rest());
            && (r.EndOfData? <==> IsEnd(line))
            && (r.EndOfData? && |line| > 8 && line[8] == NL ==> stdin.pos == old(stdin.pos) + 8)
  {
    hide FirstNl, Stdin.Taken;
    ghost var t := stdin.Rest();
    ghost var line := [c] + t;
    EndTaken(line, mem.Length - 1);
    assert line[1..] == t;
    var k := stdin.Fgets(mem, 0, mem.Length);
    assert IsEnd(line) ==> c == DATA_END[0] && mem[..7] == DATA_END[1..] by {
      if IsEnd(line) {
        assert forall i :: 0 <= i < 7 ==> mem[i] == t[i] == line[..8][i + 1];
        assert c == line[..8][0];
      }
    }
    if c == DATA_END[0] && k >= 7 && mem[..7] == DATA_END[1..] {
      assert forall i :: 0 <= i < 7 ==> t[i] == mem[..7][i] == DATA_END[1..][i];
      assert line[..8] == DATA_END;
      return EndOfData;
    }
    r := BadEnd;
  }

  /** fgets takes the end line whole, but for its first byte. */
  lemma EndTaken(rest: seq<byte>, room: nat)
    requires |rest| > 0 && room >= 8
    ensures IsEnd(rest) ==> Stdin.Taken(rest[1..], room) >= 7
    ensures IsEnd(rest) && |rest| > 8 && rest[8] == NL ==> Stdin.Taken(rest[1..], room) == 8
  {
    if IsEnd(rest) {
      var t := rest[1..];
      assert forall i :: 0 <= i < 7 ==> t[i] == rest[..8][i + 1] == DATA_END[i + 1];
      var i := FirstNl(t);
      assert i >= 7;
      if |rest| > 8 && rest[8] == NL {
        FirstNlIs(t, 7);
      }
    }
  }

  /** A line with a value, after its leading space. */
  method ReadValue(stdin: Stdin, buf: Buffer, print_: bool) returns (r: Read)
    requires stdin.Valid() && buf.mem.Length > 1
    modifies stdin`pos, buf, buf.mem
    ensures stdin.Valid() && (buf.mem == old(buf.mem) || fresh(buf.mem)) && buf.mem.Length >= old(buf.mem.Length)
    ensures var rest := old(stdin.Rest());
            var i := FirstNl(rest);
            if i < |rest| && Parsed(rest[..i], print_).Some? then
              r == Value(Parsed(rest[..i], print_).value) && stdin.pos == old(stdin.pos) + i + 1
            else r == BadEnd
  {
    hide FirstNl, Stdin.Taken, ParseText, ParseBytes;
    ghost var rest := stdin.Rest();
    var ok, len := Gather(stdin, buf);
    if !ok {
      return BadEnd;
    }
    ghost var line := buf.mem[..len];
    len := len - 1;
    buf.mem[len] := 0;
    assert buf.mem[..len] == line[..len] == rest[..len];
    var n;
    if print_ {
      ok, n := DecodeText(buf.mem, len);
    } else {
      ok, n := DecodeBytes(buf.mem, len);
    }
    if !ok {
      return BadEnd;
    }
    r := Value(buf.mem[..n]);
  }

  // ------------------------------------------------------------ the round trip

  lemma {:induction false} RecordsPlain(pairs: seq<Pair>, print_: bool, isprint: byte -> bool)
    requires Printing(isprint)
    ensures 0 !in Records(pairs, print_, isprint)
  {
    if |pairs| > 0 {
      EncodedPlain(pairs[0].key, print_, isprint);
      EncodedPlain(pairs[0].data, print_, isprint);
      RecordsPlain(pairs[1..], print_, isprint);
    }
  }

  lemma ParsedEncoded(v: seq<byte>, print_: bool, isprint: byte -> bool)
    ensures Parsed(Encoded(v, print_, isprint), print_) == Some(v)
  {
    if print_ {
      TextRoundTrip(v, isprint);
    } else {
      BytesRoundTrip(v);
    }
  }

  /** A printed line is found whole, and parses to its value. */
  lemma PrintedLine(v: seq<byte>, print_: bool, isprint: byte -> bool, tail: seq<byte>)
    requires Printing(isprint)
    ensures var rest, body := Line(v, print_, isprint) + tail, Encoded(v, print_, isprint);
            && |rest| > |body| + 1 && rest[0] == SPACE && FirstNl(rest[1..]) == |body|
            && rest[1..|body| + 1] == body && rest[|body| + 2..] == tail
            && Parsed(body, print_) == Some(v)
  {
    hide FirstNl, Encoded, Parsed;
    var rest, body := Line(v, print_, isprint) + tail, Encoded(v, print_, isprint);
    EncodedPlain(v, print_, isprint);
    ParsedEncoded(v, print_, isprint);
    assert rest[1..] == body + [NL] + tail;
    assert rest[1..][..|body|] == body;
    FirstNlIs(rest[1..], |body|);
  }

  lemma EndLine(s: seq<byte>)
    requires s == DATA_END + [NL]
    ensures IsEnd(s) && |s| == 9 && s[8] == NL
  {
  }

  // --------------------------------------------------- loading all the records

  /** The value on the first line of the input, and the input after it. */
  function FirstValue(rest: seq<byte>, print_: bool): (r: Option<(seq<byte>, seq<byte>)>)
    ensures r.Some? ==> |r.value.1| < |rest|
  {
    if |rest| == 0 || rest[0] != SPACE then None
    else
      var i := FirstNl(rest[1..]);
      if i + 1 == |rest| || Parsed(rest[1..i + 1], print_).None? then None
      else Some((Parsed(rest[1..i + 1], print_).value, rest[i + 2..]))
  }

  /** What was read, and the input after the line that ends the data. */
  datatype Loaded = Loaded(pairs: seq<Pair>, complete: bool)

  /** What the records of any input amount to: reading stops at the end of the
      data, or at the first line that is not a value. */
  function ReadAll(rest: seq<byte>, print_: bool): Loaded
    decreases |rest|
  {
    var key := FirstValue(rest, print_);
    if key.None? then Loaded([], IsEnd(rest))
    else
      var data := FirstValue(key.value.1, print_);
      if data.None? then Loaded([], false)
      else
        var more := ReadAll(data.value.1, print_);
        Loaded([Pair(key.value.0, data.value.0)] + more.pairs, more.complete)
  }

  /** readline, in these terms. */
  method ReadFirst(stdin: Stdin, buf: Buffer, print_: bool) returns (r: Read)
    requires stdin.Valid() && buf.mem.Length >= 9
    modifies stdin`pos, buf, buf.mem
    ensures stdin.Valid() && (buf.mem == old(buf.mem) || fresh(buf.mem)) && buf.mem.Length >= 9
    ensures var first := FirstValue(old(stdin.Rest()), print_);
            if first.Some? then r == Value(first.value.0) && stdin.Rest() == first.value.1
            else !r.Value? && (r.EndOfData? <==> IsEnd(old(stdin.Rest())))
    ensures var rest := old(stdin.Rest()); r.EndOfData? && |rest| > 8 && rest[8] == NL ==> stdin.Rest() == rest[9..]
  {
    hide FirstNl, Parsed, IsEnd;
    ghost var rest, pos := stdin.Rest(), stdin.pos;
    r := Readline(stdin, buf, print_);
    assert stdin.pos >= pos ==> stdin.Rest() == rest[stdin.pos - pos..];
    EndBegins(rest);
  }

  /** What is left to read after one more pair. */
  lemma ReadOn(rest: seq<byte>, print_: bool)
    ensures var key := FirstValue(rest, print_);
            if key.None? then
              && ReadAll(rest, print_) == Loaded([], IsEnd(rest))
              && AfterEnd(rest, print_) == if IsEnd(rest) && |rest| > 8 && rest[8] == NL then Some(rest[9..]) else None
            else
              var data := FirstValue(key.value.1, print_);
              if data.None? then ReadAll(rest, print_) == Loaded([], false) && AfterEnd(rest, print_) == None
              else
                && ReadAll(rest, print_).pairs == [Pair(key.value.0, data.value.0)]
                   + ReadAll(data.value.1, print_).pairs
                && ReadAll(rest, print_).complete == ReadAll(data.value.1, print_).complete
                && AfterEnd(rest, print_) == AfterEnd(data.value.1, print_) && |data.value.1| < |rest|
  {
    hide IsEnd;
  }

  /** The loop of mdb_load over the records, with its two buffers. */
  method Load(stdin: Stdin, kbuf: Buffer, dbuf: Buffer, print_: bool) returns (res: Loaded)
    requires stdin.Valid() && kbuf.mem.Length >= 9 && dbuf.mem.Length >= 9 && kbuf != dbuf && kbuf.mem != dbuf.mem
    modifies stdin`pos, kbuf, kbuf.mem, dbuf, dbuf.mem
    ensures stdin.Valid() && res == ReadAll(old(stdin.Rest()), print_)
    ensures res.complete && AfterEnd(old(stdin.Rest()), print_).Some? ==>
              stdin.Rest() == AfterEnd(old(stdin.Rest()), print_).value
  {
    hide FirstValue, IsEnd, ReadAll, AfterEnd;
    var read := [];
    ghost var rest := stdin.Rest();
    while true
      invariant stdin.Valid() && kbuf.mem.Length >= 9 && dbuf.mem.Length >= 9 && kbuf.mem != dbuf.mem
      invariant (kbuf.mem == old(kbuf.mem) || fresh(kbuf.mem)) && (dbuf.mem == old(dbuf.mem) || fresh(dbuf.mem))
      invariant ReadAll(rest, print_).complete == ReadAll(stdin.Rest(), print_).complete
      invariant ReadAll(rest, print_).pairs == read + ReadAll(stdin.Rest(), print_).pairs
      invariant AfterEnd(rest, print_) == AfterEnd(stdin.Rest(), print_)
      decreases |stdin.Rest()|
    {
      ReadOn(stdin.Rest(), print_);
      var key := ReadFirst(stdin, kbuf, print_);
      if !key.Value? {
        return Loaded(read, key.EndOfData?);
      }
      var data := ReadFirst(stdin, dbuf, print_);
      if !data.Value? {
        return Loaded(read, false);
      }
      read := read + [Pair(key.v, data.v)];
    }
  }

  /** The input after the line that ends the data, if there is such a line. */
  function AfterEnd(rest: seq<byte>, print_: bool): Option<seq<byte>>
    decreases |rest|
  {
    var key := FirstValue(rest, print_);
    if key.None? then (if IsEnd(rest) && |rest| > 8 && rest[8] == NL then Some(rest[9..]) else None)
    else
      var data := FirstValue(key.value.1, print_);
      if data.None? then None else AfterEnd(data.value.1, print_)
  }

  lemma FirstPrinted(v: seq<byte>, print_: bool, isprint: byte -> bool, tail: seq<byte>)
    requires Printing(isprint)
    ensures FirstValue(Line(v, print_, isprint) + tail, print_) == Some((v, tail))
  {
    hide FirstNl, Parsed, Line, Encoded;
    PrintedLine(v, print_, isprint, tail);
  }

  lemma NoFirst(rest: seq<byte>, print_: bool)
    requires IsEnd(rest)
    ensures FirstValue(rest, print_) == None
  {
    EndBegins(rest);
  }

  /** What mdb_dump prints amounts to the records it was given. */
  lemma {:induction false} RecordsReadBack(pairs: seq<Pair>, print_: bool, isprint: byte -> bool)
    requires Printing(isprint)
    ensures var out := Records(pairs, print_, isprint);
            ReadAll(out, print_) == Loaded(pairs, true) && AfterEnd(out, print_) == Some([])
  {
    hide FirstNl, Parsed, IsEnd, Line, Encoded, FirstValue;
    var out := Records(pairs, print_, isprint);
    if |pairs| == 0 {
      EndLine(out);
      NoFirst(out, print_);
      assert out[9..] == [];
    } else {
      var k, d, tail := pairs[0].key, pairs[0].data, Records(pairs[1..], print_, isprint);
      assert out == Line(k, print_, isprint) + (Line(d, print_, isprint) + tail);
      FirstPrinted(k, print_, isprint, Line(d, print_, isprint) + tail);
      FirstPrinted(d, print_, isprint, tail);
      RecordsReadBack(pairs[1..], print_, isprint);
      assert [pairs[0]] + pairs[1..] == pairs;
    }
  }

  /** What mdb_dump prints mdb_load reads back, whatever the initial buffers,
      and it stops right after the line that ends the data. */
  method RoundTrip(pairs: seq<Pair>, print_: bool, isprint: byte -> bool, ksize: nat, dsize: nat)
    returns (res: Loaded, left: nat)
    requires Printing(isprint) && ksize >= 9 && dsize >= 9
    ensures res == Loaded(pairs, true) && left == 0
  {
    hide Records, Printing, ReadAll, AfterEnd;
    var out := Dump(pairs, print_, isprint);
    RecordsPlain(pairs, print_, isprint);
    RecordsReadBack(pairs, print_, isprint);
    var stdin := new Stdin(out);
    assert out[0..] == out;
    var kbuf := new Buffer(ksize);
    var dbuf := new Buffer(dsize);
    res := Load(stdin, kbuf, dbuf, print_);
    left := |stdin.data| - stdin.pos;
  }
}
