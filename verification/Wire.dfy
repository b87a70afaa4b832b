/** The text of a message: eleven fields separated by '|', ended by a newline. */
module Wire {
  import opened Domotics
  import opened Numerals

  const MAX_MSG_LEN := 1024
  const MSG_REQUEST := 1
  const EXT_SENDER_ID := "EXT"
  const FIELD_COUNT := 11

  datatype Message = Message(
    sender: string, command: string, target: int, src: int, dst: int, pid: int, request: int,
    arg1: string, arg2: string, status: int, payload: string, kind: int)

  // ---------------------------------------------------------------- writing

  function Join(fields: seq<string>): string {
    if fields == [] then "" else if |fields| == 1 then fields[0] else fields[0] + "|" + Join(fields[1..])
  }

  function FieldsOf(m: Message): (fields: seq<string>)
    ensures |fields| == FIELD_COUNT
  {
    [m.sender, m.command, Decimal(m.target), Decimal(m.src), Decimal(m.dst), Decimal(m.pid), Decimal(m.request),
     m.arg1, m.arg2, Decimal(m.status), m.payload]
  }

  function Encode(m: Message): string {
    Join(FieldsOf(m)) + "\n"
  }

  // ---------------------------------------------------------------- reading

  // The first place of `c` at or after `i`, or |s|.
  function Find(s: string, c: char, i: nat): (j: nat)
    requires i <= |s|
    ensures i <= j <= |s| && (j < |s| ==> s[j] == c) && forall k :: i <= k < j ==> s[k] != c
    decreases |s| - i
  {
    if i == |s| || s[i] == c then i else Find(s, c, i + 1)
  }

  // The text that C sees: up to the first newline or NUL.
  function Line(s: string): string {
    s[..Find(s[..Find(s, '\0', 0)], '\n', 0)]
  }

  // Cuts the text at its first `cuts` separators.
  function Cut(s: string, cuts: nat): (fields: Option<seq<string>>)
    ensures fields.Some? ==> |fields.value| == cuts + 1
  {
    if cuts == 0 then Some([s]) else
      var i := Find(s, '|', 0);
      if i == |s| then None else
        var rest := Cut(s[i + 1..], cuts - 1);
        if rest.None? then None else Some([s[..i]] + rest.value)
  }

  // A field copied into an array of `size` characters.
  function Fit(s: string, size: nat): string
    requires size > 0
  {
    if |s| < size then s else s[..size - 1]
  }

  function Build(f: seq<string>): Option<Message>
    requires |f| == FIELD_COUNT
  {
    var target, dst, pid := ParseInt(f[2]), ParseInt(f[4]), ParseInt(f[5]);
    var request, status := ParseInt(f[6]), ParseInt(f[9]);
    var src := if f[0] == EXT_SENDER_ID then Some(-1) else ParseInt(f[3]);
    if target.None? || src.None? || dst.None? || pid.None? || request.None? || status.None? then None
    else Some(Message(Fit(f[0], 16), Fit(f[1], 32), target.value, src.value, dst.value, pid.value, request.value,
                      Fit(f[7], 32), Fit(f[8], 32), status.value, Fit(f[10], MAX_MSG_LEN), MSG_REQUEST))
  }

  function Separators(): nat {
    FIELD_COUNT - 1
  }

  function Decode(s: string): Option<Message> {
    var fields := Cut(Line(s), Separators());
    if fields.None? then None else Build(fields.value)
  }

  // ---------------------------------------------------------------- round trip

  predicate Plain(s: string) {
    '|' !in s && '\n' !in s && '\0' !in s
  }

  // A message as the structs hold it, with no separator or newline inside a field; the payload
  // may contain separators.
  predicate Clean(m: Message) {
    && Plain(m.sender) && Plain(m.command) && Plain(m.arg1) && Plain(m.arg2)
    && '\n' !in m.payload && '\0' !in m.payload
    && |m.sender| < 16 && |m.command| < 32 && |m.arg1| < 32 && |m.arg2| < 32 && |m.payload| < MAX_MSG_LEN
    && IsInt32(m.target) && IsInt32(m.src) && IsInt32(m.dst)
    && IsInt32(m.pid) && IsInt32(m.request) && IsInt32(m.status)
  }

  // What the receiver makes of a message: a request, without a source if it came from outside.
  function Normal(m: Message): Message {
    m.(kind := MSG_REQUEST, src := if m.sender == EXT_SENDER_ID then -1 else m.src)
  }

  lemma FindFirst(s: string, t: string, c: char)
    requires c !in s
    ensures Find(s + [c] + t, c, 0) == |s|
  {
    assert (s + [c] + t)[|s|] == c;
    assert forall k :: 0 <= k < |s| ==> (s + [c] + t)[k] == s[k];
  }

  lemma FindIs(s: string, c: char, n: nat)
    requires n <= |s| && (n < |s| ==> s[n] == c) && forall k :: 0 <= k < n ==> s[k] != c
    ensures Find(s, c, 0) == n
  {
  }

  lemma FindNone(s: string, c: char)
    requires c !in s
    ensures Find(s, c, 0) == |s|
  {
  }

  lemma {:induction false} CutJoined(fields: seq<string>)
    requires fields != [] && forall i :: 0 <= i < |fields| - 1 ==> '|' !in fields[i]
    ensures Cut(Join(fields), |fields| - 1) == Some(fields)
  {
    if |fields| > 1 {
      var rest := Join(fields[1..]);
      CutJoined(fields[1..]);
      FindFirst(fields[0], rest, '|');
      assert Join(fields) == fields[0] + ['|'] + rest;
      assert Join(fields)[|fields[0]| + 1..] == rest && Join(fields)[..|fields[0]|] == fields[0];
      assert [fields[0]] + fields[1..] == fields;
    } else {
      assert fields == [fields[0]];
    }
  }

  lemma {:induction false} JoinHasNo(fields: seq<string>, c: char)
    requires c != '|' && forall i :: 0 <= i < |fields| ==> c !in fields[i]
    ensures c !in Join(fields)
  {
    if |fields| > 1 {
      JoinHasNo(fields[1..], c);
    }
  }

  lemma LineOf(s: string)
    requires '\n' !in s && '\0' !in s
    ensures Line(s + "\n") == s
  {
    var t := s + "\n";
    FindNone(t, '\0');
    assert t[..|t|] == t;
    FindFirst(s, "", '\n');
    assert s + ['\n'] + "" == t;
  }

  lemma DecimalIsPlain(n: int)
    ensures Plain(Decimal(n))
  {
  }

  lemma FieldsArePlain(m: Message)
    requires Clean(m)
    ensures forall i :: 0 <= i < FIELD_COUNT - 1 ==> Plain(FieldsOf(m)[i])
  {
    DecimalIsPlain(m.target);
    DecimalIsPlain(m.src);
    DecimalIsPlain(m.dst);
    DecimalIsPlain(m.pid);
    DecimalIsPlain(m.request);
    DecimalIsPlain(m.status);
  }

  lemma FieldsBuild(m: Message)
    requires Clean(m)
    ensures Build(FieldsOf(m)) == Some(Normal(m))
  {
    ParsePrinted(m.target);
    ParsePrinted(m.src);
    ParsePrinted(m.dst);
    ParsePrinted(m.pid);
    ParsePrinted(m.request);
    ParsePrinted(m.status);
  }

  // Reading a written message gives it back.
  lemma RoundTrip(m: Message)
    requires Clean(m)
    ensures Decode(Encode(m)) == Some(Normal(m))
    ensures m.kind == MSG_REQUEST && (m.sender == "EXT" ==> m.src == -1) ==> Decode(Encode(m)) == Some(m)
    ensures Line(Encode(m)) + "\n" == Encode(m)
  {
    FieldsArePlain(m);
    assert FieldsOf(m)[FIELD_COUNT - 1] == m.payload;
    JoinHasNo(FieldsOf(m), '\n');
    JoinHasNo(FieldsOf(m), '\0');
    LineOf(Join(FieldsOf(m)));
    CutJoined(FieldsOf(m));
    FieldsBuild(m);
  }

  // The order of the fields on the wire.
  lemma FieldOrder(m: Message)
    requires Clean(m)
    ensures Cut(Line(Encode(m)), 10) ==
      Some([m.sender, m.command, Decimal(m.target), Decimal(m.src), Decimal(m.dst), Decimal(m.pid),
            Decimal(m.request), m.arg1, m.arg2, Decimal(m.status), m.payload])
  {
    FieldsArePlain(m);
    assert FieldsOf(m)[FIELD_COUNT - 1] == m.payload;
    JoinHasNo(FieldsOf(m), '\n');
    JoinHasNo(FieldsOf(m), '\0');
    LineOf(Join(FieldsOf(m)));
    CutJoined(FieldsOf(m));
  }

  // ---------------------------------------------------------------- normal form

  lemma {:induction false} CutFields(s: string, cuts: nat)
    requires Cut(s, cuts).Some?
    ensures forall i :: 0 <= i < cuts ==> '|' !in Cut(s, cuts).value[i]
    ensures forall i, c :: 0 <= i <= cuts && c in Cut(s, cuts).value[i] ==> c in s
  {
    if cuts > 0 {
      var i := Find(s, '|', 0);
      CutFields(s[i + 1..], cuts - 1);
      assert forall c :: c in s[i + 1..] ==> c in s;
    }
  }

  lemma LineIsPlain(s: string)
    ensures '\n' !in Line(s) && '\0' !in Line(s)
  {
  }

  // Whatever line is accepted, the message read from it is clean and already normal.
  lemma DecodedIsClean(s: string)
    requires Decode(s).Some?
    ensures Clean(Decode(s).value) && Normal(Decode(s).value) == Decode(s).value
  {
    LineIsPlain(s);
    CutFields(Line(s), Separators());
  }

  // Signs, blanks, over-long fields and a junk source field are gone after one reading: writing
  // the message and reading it again changes nothing.
  lemma DecodeNormalises(s: string)
    requires Decode(s).Some?
    ensures Decode(Encode(Decode(s).value)) == Decode(s)
  {
    DecodedIsClean(s);
    RoundTrip(Decode(s).value);
  }

  // ---------------------------------------------------------------- what is accepted

  function Bars(s: string): nat {
    if s == "" then 0 else (if s[0] == '|' then 1 else 0) + Bars(s[1..])
  }

  lemma {:induction false} BarsFrom(s: string, i: nat)
    requires i <= |s| && forall k :: 0 <= k < i ==> s[k] != '|'
    ensures Bars(s) == Bars(s[i..])
  {
    if i > 0 {
      BarsFrom(s[1..], i - 1);
      assert s[1..][i - 1..] == s[i..];
    }
  }

  lemma {:induction false} CutWhen(s: string, cuts: nat)
    ensures Cut(s, cuts).Some? <==> Bars(s) >= cuts
  {
    if cuts > 0 {
      var i := Find(s, '|', 0);
      BarsFrom(s, i);
      if i < |s| {
        assert s[i..][1..] == s[i + 1..];
        CutWhen(s[i + 1..], cuts - 1);
      }
    }
  }

  // Of a field that does not fit, what fits is kept.
  ghost predicate Kept(text: string, field: string, size: nat) {
    text <= field && |text| == if |field| < size then |field| else size - 1
  }

  // A line with fewer than ten separators is refused.
  lemma DecodeNeedsBars(s: string)
    ensures Decode(s).Some? ==> Bars(Line(s)) >= 10
    ensures Cut(Line(s), 10).Some? <==> Bars(Line(s)) >= 10
  {
    CutWhen(Line(s), 10);
  }

  // Any other is accepted exactly if its numbers can be read, the source only of messages from
  // inside; texts too long for their arrays are cut off.
  lemma DecodedWhen(s: string, f: seq<string>)
    requires Cut(Line(s), 10) == Some(f)
    ensures Decode(s).Some? <==>
      && ParseInt(f[2]).Some? && (f[0] == "EXT" || ParseInt(f[3]).Some?) && ParseInt(f[4]).Some?
      && ParseInt(f[5]).Some? && ParseInt(f[6]).Some? && ParseInt(f[9]).Some?
    ensures Decode(s).Some? ==> (
      var m := Decode(s).value;
      && Kept(m.sender, f[0], 16) && Kept(m.command, f[1], 32) && Kept(m.arg1, f[7], 32) && Kept(m.arg2, f[8], 32)
      && Kept(m.payload, f[10], MAX_MSG_LEN)
      && ParseInt(f[2]) == Some(m.target) && ParseInt(f[4]) == Some(m.dst) && ParseInt(f[5]) == Some(m.pid)
      && ParseInt(f[6]) == Some(m.request) && ParseInt(f[9]) == Some(m.status)
      && (if f[0] == "EXT" then m.src == -1 else ParseInt(f[3]) == Some(m.src)))
  {
  }
}
