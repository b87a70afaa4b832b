/** Messages on a FIFO: the writer's buffer, the in-place splitting of a received line, and the
    reader that takes one byte at a time. */
module Framing {
  import opened Domotics
  import opened Numerals
  import opened Wire

  // ---------------------------------------------------------------- C strings in a buffer

  ghost predicate CString(b: seq<char>, i: nat, s: string) {
    i + |s| < |b| && b[i + |s|] == '\0' && forall k {:trigger s[k]} :: 0 <= k < |s| ==> b[i + k] == s[k] && s[k] != '\0'
  }

  // snprintf into a buffer: the text and its terminator, or an error when it does not fit.
  method SerializeMessage(m: Message, buffer: array<char>) returns (rc: Code)
    modifies buffer
    ensures rc == if |Encode(m)| < buffer.Length then OK else ERR_IPC_FAILURE
    ensures rc == OK ==> buffer[..|Encode(m)|] == Encode(m) && buffer[|Encode(m)|] == '\0'
  {
    if buffer.Length == 0 {
      return ERR_IPC_FAILURE;
    }
    var text := Encode(m);
    var fits := if |text| < buffer.Length then |text| else buffer.Length - 1;
    for i := 0 to fits
      invariant buffer[..i] == text[..i]
    {
      buffer[i] := text[i];
    }
    buffer[fits] := '\0';
    if |text| >= buffer.Length {
      return ERR_IPC_FAILURE;
    }
    assert text[..|text|] == text;
    return OK;
  }

  // The next `c` at or after `i`, if it comes before the end of the string.
  method StrChr(buffer: array<char>, i: nat, c: char, ghost s: string) returns (found: bool, j: nat)
    requires CString(buffer[..], i, s) && c != '\0'
    ensures j == i + Find(s, c, 0) && (found <==> Find(s, c, 0) < |s|)
  {
    j := i;
    while buffer[j] != '\0' && buffer[j] != c
      invariant i <= j <= i + |s| && forall k :: 0 <= k < j - i ==> s[k] != c
      decreases i + |s| - j
    {
      assert buffer[..][i + (j - i)] == s[j - i];
      j := j + 1;
    }
    if j < i + |s| {
      assert buffer[..][i + (j - i)] == s[j - i];
    }
    FindIs(s, c, j - i);
    found := buffer[j] == c;
  }

  method ReadCString(buffer: array<char>, i: nat, ghost s: string) returns (r: string)
    requires CString(buffer[..], i, s)
    ensures r == s
  {
    r := "";
    while buffer[i + |r|] != '\0'
      invariant |r| <= |s| && r == s[..|r|]
      invariant |r| < |s| ==> buffer[i + |r|] == s[|r|] != '\0'
      decreases |s| - |r|
    {
      r := r + [buffer[i + |r|]];
      assert |r| < |s| ==> buffer[..][i + |r|] == s[|r|];
    }
  }

  // ---------------------------------------------------------------- splitting a line in place

  ghost function Prepend(done: seq<string>, rest: Option<seq<string>>): Option<seq<string>> {
    if rest.None? then None else Some(done + rest.value)
  }

  // The fields found so far stand in the buffer before `iter`, each with its terminator.
  ghost predicate Stored(b: seq<char>, starts: seq<nat>, done: seq<string>, iter: nat) {
    |starts| == |done| &&
    forall j :: 0 <= j < |done| ==> CString(b, starts[j], done[j]) && starts[j] + |done[j]| < iter
  }

  lemma StoredKept(b: seq<char>, b': seq<char>, starts: seq<nat>, done: seq<string>, iter: nat)
    requires Stored(b, starts, done, iter) && |b'| == |b| && forall k :: 0 <= k < iter && k < |b| ==> b'[k] == b[k]
    ensures Stored(b', starts, done, iter)
  {
  }

  // A terminator written inside a string makes two of it.
  lemma Terminated(b: seq<char>, b': seq<char>, i: nat, s: string, n: nat)
    requires CString(b, i, s) && n < |s| && b' == b[i + n := '\0']
    ensures CString(b', i, s[..n]) && CString(b', i + n + 1, s[n + 1..])
  {
    var rest := s[n + 1..];
    forall k {:trigger rest[k]} | 0 <= k < |rest| ensures b'[i + n + 1 + k] == rest[k] != '\0' {
      assert rest[k] == s[n + 1 + k];
    }
  }

  // `fields` stand in the buffer before `iter`, and `rest` from there on.
  ghost predicate Layout(b: seq<char>, starts: seq<nat>, fields: seq<string>, iter: nat, rest: string) {
    CString(b, iter, rest) && Stored(b, starts, fields, iter)
  }

  lemma LayoutStep(b: seq<char>, starts: seq<nat>, fields: seq<string>, iter: nat, rest: string, n: nat)
    requires Layout(b, starts, fields, iter, rest) && n < |rest|
    ensures iter + n < |b|
    ensures Layout(b[iter + n := '\0'], starts + [iter], fields + [rest[..n]], iter + n + 1, rest[n + 1..])
  {
    Terminated(b, b[iter + n := '\0'], iter, rest, n);
    StoredKept(b, b[iter + n := '\0'], starts, fields, iter);
  }

  lemma LayoutEnd(b: seq<char>, starts: seq<nat>, fields: seq<string>, iter: nat, rest: string)
    requires Layout(b, starts, fields, iter, rest)
    ensures |starts| == |fields|
    ensures forall j :: 0 <= j <= |fields| ==> CString(b, (starts + [iter])[j], (fields + [rest])[j])
  {
  }

  // `fields` are the first cuts of `text`; `cuts` more are to be made in `rest`.
  ghost predicate CutSoFar(whole: Option<seq<string>>, fields: seq<string>, rest: string, cuts: nat) {
    whole == Prepend(fields, Cut(rest, cuts))
  }

  lemma CutEnd(whole: Option<seq<string>>, fields: seq<string>, rest: string)
    requires CutSoFar(whole, fields, rest, 0)
    ensures whole == Some(fields + [rest])
  {
  }

  lemma CutStep(whole: Option<seq<string>>, rest: string, fields: seq<string>, cuts: nat)
    requires cuts > 0 && CutSoFar(whole, fields, rest, cuts)
    ensures var n := Find(rest, '|', 0);
      if n == |rest| then whole == None else CutSoFar(whole, fields + [rest[..n]], rest[n + 1..], cuts - 1)
  {
    var n := Find(rest, '|', 0);
    if n < |rest| {
      var more := Cut(rest[n + 1..], cuts - 1);
      assert Cut(rest, cuts) == Prepend([rest[..n]], more);
      PrependTwice(fields, rest[..n], more);
    }
  }

  lemma PrependTwice(fields: seq<string>, field: string, more: Option<seq<string>>)
    ensures Prepend(fields, Prepend([field], more)) == Prepend(fields + [field], more)
  {
    if more.Some? {
      assert fields + ([field] + more.value) == fields + [field] + more.value;
    }
  }

  // Ends the current field at its separator, if there is one.
  method CutOne(buffer: array<char>, iter: nat, ghost starts: seq<nat>, ghost fields: seq<string>, ghost rest: string)
    returns (found: bool, next: nat, ghost n: nat)
    requires Layout(buffer[..], starts, fields, iter, rest)
    modifies buffer
    ensures n == Find(rest, '|', 0) && (found <==> n < |rest|) && next == iter + n + 1
    ensures found ==> Layout(buffer[..], starts + [iter], fields + [rest[..n]], next, rest[n + 1..])
  {
    var delim;
    found, delim := StrChr(buffer, iter, '|', rest);
    n := delim - iter;
    next := delim + 1;
    if found {
      ghost var b := buffer[..];
      LayoutStep(b, starts, fields, iter, rest, n);
      buffer[delim] := '\0';
      assert buffer[..] == b[iter + n := '\0'];
    }
  }

  // Writes '\0' over the first `cuts` separators; `whole` is what cutting the text gives.
  method SplitFields(buffer: array<char>, cuts: nat, ghost text: string, ghost whole: Option<seq<string>>)
    returns (ok: bool, starts: seq<nat>, ghost fields: seq<string>)
    requires CString(buffer[..], 0, text) && CutSoFar(whole, [], text, cuts)
    modifies buffer
    ensures ok <==> whole.Some?
    ensures ok ==> fields == whole.value && |starts| == |fields| == cuts + 1
    ensures ok ==> forall j :: 0 <= j <= cuts ==> CString(buffer[..], starts[j], fields[j])
  {
    starts, fields := [], [];
    var iter := 0;
    ghost var rest, left := text, cuts;
    for i := 0 to cuts
      invariant |fields| == i && left == cuts - i && Layout(buffer[..], starts, fields, iter, rest)
      invariant CutSoFar(whole, fields, rest, left)
    {
      CutStep(whole, rest, fields, left);
      var found, next, n := CutOne(buffer, iter, starts, fields, rest);
      if !found {
        return false, starts, fields;
      }
      starts, fields := starts + [iter], fields + [rest[..n]];
      iter, rest, left := next, rest[n + 1..], left - 1;
    }
    LayoutEnd(buffer[..], starts, fields, iter, rest);
    CutEnd(whole, fields, rest);
    starts, fields := starts + [iter], fields + [rest];
    return true, starts, fields;
  }

  lemma PrependNothing(fields: Option<seq<string>>)
    ensures Prepend([], fields) == fields
  {
    if fields.Some? {
      assert [] + fields.value == fields.value;
    }
  }

  // The whole of deserialize_message: any line, any outcome, exactly as Decode says.
  method DeserializeMessage(buffer: array<char>) returns (rc: Code, msg: Option<Message>)
    requires '\0' in buffer[..]
    modifies buffer
    ensures msg == Decode(old(buffer[..]))
    ensures rc == if msg.Some? then OK else ERR_IPC_FAILURE
  {
    ghost var s := buffer[..];
    var end := StrCSpn(buffer);
    buffer[end] := '\0';
    LineIsPlain(s);
    assert CString(buffer[..], 0, Line(s));
    ghost var fs;
    var ok, starts;
    PrependNothing(Cut(Line(s), Separators()));
    ok, starts, fs := SplitFields(buffer, Separators(), Line(s), Cut(Line(s), Separators()));
    if !ok {
      return ERR_IPC_FAILURE, None;
    }
    var fields: seq<string> := [];
    for j := 0 to FIELD_COUNT
      invariant fields == fs[..j]
      invariant forall i :: 0 <= i < FIELD_COUNT ==> CString(buffer[..], starts[i], fs[i])
    {
      var field := ReadCString(buffer, starts[j], fs[j]);
      fields := fields + [field];
    }
    assert fields == fs;
    msg := ReadFields(fields);
    return if msg.Some? then OK else ERR_IPC_FAILURE, msg;
  }

  // The fields one by one, stopping at the first that is no number.
  method ReadFields(fields: seq<string>) returns (msg: Option<Message>)
    requires |fields| == FIELD_COUNT
    ensures msg == Build(fields)
  {
    var target := ParseInt(fields[2]);
    if target.None? {
      return None;
    }
    var src := Some(-1);
    if fields[0] != EXT_SENDER_ID {
      src := ParseInt(fields[3]);
      if src.None? {
        return None;
      }
    }
    var dst := ParseInt(fields[4]);
    if dst.None? {
      return None;
    }
    var pid := ParseInt(fields[5]);
    if pid.None? {
      return None;
    }
    var request := ParseInt(fields[6]);
    if request.None? {
      return None;
    }
    var status := ParseInt(fields[9]);
    if status.None? {
      return None;
    }
    return Some(Message(Fit(fields[0], 16), Fit(fields[1], 32), target.value, src.value, dst.value, pid.value,
                        request.value, Fit(fields[7], 32), Fit(fields[8], 32), status.value,
                        Fit(fields[10], MAX_MSG_LEN), MSG_REQUEST));
  }

  // The length of the text before the first newline or terminator.
  method StrCSpn(buffer: array<char>) returns (end: nat)
    requires '\0' in buffer[..]
    ensures end < buffer.Length && Line(buffer[..]) == buffer[..end]
  {
    ghost var n := Find(buffer[..], '\0', 0);
    ghost var k :| 0 <= k < buffer.Length && buffer[..][k] == '\0';
    assert n <= k;
    end := 0;
    while buffer[end] != '\0' && buffer[end] != '\n'
      invariant end <= n && '\n' !in buffer[..end]
      decreases n - end
    {
      assert buffer[..end + 1] == buffer[..end] + [buffer[end]];
      end := end + 1;
    }
    ghost var b := buffer[..][..n];
    if end < n {
      FindFirst(b[..end], b[end + 1..], '\n');
      assert b[..end] + ['\n'] + b[end + 1..] == b;
    } else {
      assert buffer[..end] == b;
      FindNone(b, '\n');
    }
  }

  // ---------------------------------------------------------------- the reader

  // What a read finds once the FIFO is drained: nothing yet, no writer left, or an error.
  datatype Ending = Empty | NoWriter | Broken

  class Fifo {
    var data: string
    const ending: Ending

    constructor (data: string, ending: Ending)
      ensures this.data == data && this.ending == ending
    {
      this.data := data;
      this.ending := ending;
    }

    // read(fd, &ch, 1)
    method ReadByte() returns (n: int, c: char)
      modifies this
      ensures old(data) != "" ==> n == 1 && c == old(data)[0] && data == old(data)[1..]
      ensures old(data) == "" ==> data == "" && n == if ending == NoWriter then 0 else -1
    {
      if data == "" {
        return if ending == NoWriter then 0 else -1, ' ';
      }
      n, c := 1, data[0];
      data := data[1..];
    }
  }

  // One call of the reader: the code, the message and what is left in the FIFO.
  datatype Received = Received(rc: Code, msg: Option<Message>, rest: string)

  function Receive(data: string, ending: Ending): Received {
    var k := Find(data, '\n', 0);
    if k < |data| && k < MAX_MSG_LEN - 1 then
      var msg := Decode(data[..k + 1]);
      Received(if msg.Some? then OK else ERR_IPC_FAILURE, msg, data[k + 1..])
    else if |data| >= MAX_MSG_LEN - 1 then Received(ERR_IPC_FAILURE, None, data[MAX_MSG_LEN - 1..])
    else Received(if ending == Broken || data != "" then ERR_IPC_FAILURE else ERR_TIMEOUT, None, "")
  }

  // Reads up to and including the next newline into a cleared buffer; a full buffer or a FIFO
  // that ends first is an error.
  method ReadLine(fifo: Fifo, buffer: array<char>) returns (rc: Code, total: nat)
    requires buffer.Length == MAX_MSG_LEN && forall i :: 0 <= i < MAX_MSG_LEN ==> buffer[i] == '\0'
    modifies fifo, buffer
    ensures total <= |old(fifo.data)| && fifo.data == old(fifo.data)[total..]
    ensures rc == OK ==> 0 < total < MAX_MSG_LEN
    ensures rc == OK ==> old(fifo.data)[total - 1] == '\n' && '\n' !in old(fifo.data)[..total - 1]
    ensures rc == OK ==> buffer[..total] == old(fifo.data)[..total] && buffer[total] == '\0'
    ensures rc != OK ==> Received(rc, None, fifo.data) == Receive(old(fifo.data), fifo.ending)
  {
    ghost var data := fifo.data;
    total := 0;
    while total < MAX_MSG_LEN - 1
      invariant total <= MAX_MSG_LEN - 1 && total <= |data| && fifo.data == data[total..]
      invariant buffer[..total] == data[..total] && '\n' !in data[..total]
    {
      var n, c := fifo.ReadByte();
      if n < 0 {
        ReceiveEnd(data, total, fifo.ending);
        if fifo.ending == Empty {
          return if total == 0 then ERR_TIMEOUT else ERR_IPC_FAILURE, total;
        }
        return ERR_IPC_FAILURE, total;
      }
      if n == 0 {
        ReceiveEnd(data, total, fifo.ending);
        return if total == 0 then ERR_TIMEOUT else ERR_IPC_FAILURE, total;
      }
      buffer[total] := c;
      total := total + 1;
      assert data[..total] == data[..total - 1] + [c];
      if c == '\n' {
        buffer[total] := '\0';
        return OK, total;
      }
    }
    ReceiveLong(data, total, fifo.ending);
    return ERR_IPC_FAILURE, total;
  }

  method RecvMessage(fifo: Fifo) returns (rc: Code, msg: Option<Message>)
    modifies fifo
    ensures Received(rc, msg, fifo.data) == Receive(old(fifo.data), fifo.ending)
    ensures old(fifo.data) == "" && fifo.ending != Broken ==> rc == ERR_TIMEOUT
  {
    var buffer := new char[MAX_MSG_LEN](i => '\0');
    ghost var data := fifo.data;
    var total;
    rc, total := ReadLine(fifo, buffer);
    if rc != OK {
      return rc, None;
    }
    assert buffer[..][total] == '\0' && buffer[..][..total] == data[..total];
    LineOfBuffer(buffer[..], data[..total], total);
    ReceiveLine(data, total - 1, fifo.ending);
    rc, msg := DeserializeMessage(buffer);
  }

  lemma ReceiveEnd(data: string, n: nat, ending: Ending)
    requires n == |data| < MAX_MSG_LEN - 1 && '\n' !in data[..n]
    ensures Receive(data, ending) ==
      Received(if ending == Broken || n != 0 then ERR_IPC_FAILURE else ERR_TIMEOUT, None, "")
  {
    NoLine(data, n);
  }

  lemma ReceiveLong(data: string, n: nat, ending: Ending)
    requires n == MAX_MSG_LEN - 1 <= |data| && '\n' !in data[..n]
    ensures Receive(data, ending) == Received(ERR_IPC_FAILURE, None, data[n..])
  {
    NoLine(data, n);
  }

  lemma ReceiveLine(data: string, k: nat, ending: Ending)
    requires k < |data| && k < MAX_MSG_LEN - 1 && data[k] == '\n' && '\n' !in data[..k]
    ensures var msg := Decode(data[..k + 1]);
      Receive(data, ending) == Received(if msg.Some? then OK else ERR_IPC_FAILURE, msg, data[k + 1..])
  {
    AtLine(data, k);
  }

  lemma NoLine(data: string, n: nat)
    requires n <= |data| && '\n' !in data[..n]
    ensures Find(data, '\n', 0) >= n
  {
    forall k | 0 <= k < n ensures data[k] != '\n' {
      assert data[..n][k] == data[k];
    }
  }

  lemma AtLine(data: string, k: nat)
    requires k < |data| && data[k] == '\n' && '\n' !in data[..k]
    ensures Find(data, '\n', 0) == k
  {
    FindFirst(data[..k], data[k + 1..], '\n');
    assert data[..k] + ['\n'] + data[k + 1..] == data;
  }

  // The buffer after the terminated line reads as the line alone.
  lemma LineOfBuffer(b: seq<char>, line: string, n: nat)
    requires n == |line| < |b| && b[..n] == line && b[n] == '\0' && n > 0 && line[n - 1] == '\n'
    ensures Decode(b) == Decode(line)
  {
    var i, j := Find(b, '\0', 0), Find(line, '\0', 0);
    assert forall k :: 0 <= k < n ==> b[k] == line[k];
    assert i == j && b[..i] == line[..j];
    assert b[..Find(b[..i], '\n', 0)] == line[..Find(b[..i], '\n', 0)];
  }

  // ---------------------------------------------------------------- streams

  // What a sender can put on a FIFO in one message.
  predicate Sendable(m: Message) {
    Clean(m) && |Encode(m)| < MAX_MSG_LEN
  }

  function Stream(ms: seq<Message>): string {
    if ms == [] then "" else Encode(ms[0]) + Stream(ms[1..])
  }

  // The messages of `n` successful calls of the reader and what is left after them.
  function ReadMany(data: string, ending: Ending, n: nat): Option<(seq<Message>, string)> {
    if n == 0 then Some(([], data)) else
      var first := Receive(data, ending);
      if first.rc != OK || first.msg.None? then None else
        var rest := ReadMany(first.rest, ending, n - 1);
        if rest.None? then None else Some(([first.msg.value] + rest.value.0, rest.value.1))
  }

  function NormalAll(ms: seq<Message>): seq<Message> {
    if ms == [] then [] else [Normal(ms[0])] + NormalAll(ms[1..])
  }

  lemma ReceiveOne(m: Message, rest: string, ending: Ending)
    requires Sendable(m)
    ensures Receive(Encode(m) + rest, ending) == Received(OK, Some(Normal(m)), rest)
  {
    RoundTrip(m);
    LineIsPlain(Encode(m));
    var line := Line(Encode(m));
    FindFirst(line, rest, '\n');
    assert Encode(m) + rest == line + ['\n'] + rest;
    assert (Encode(m) + rest)[..|line| + 1] == Encode(m);
    assert (Encode(m) + rest)[|line| + 1..] == rest;
  }

  lemma ReadOneMore(data: string, ending: Ending, n: nat, m: Message, rest: string)
    requires Receive(data, ending) == Received(OK, Some(m), rest)
    ensures var more := ReadMany(rest, ending, n);
      ReadMany(data, ending, n + 1) == if more.None? then None else Some(([m] + more.value.0, more.value.1))
  {
  }

  // A drained FIFO has no message to give.
  lemma Drained(ending: Ending)
    ensures Receive("", ending) == Received(if ending == Broken then ERR_IPC_FAILURE else ERR_TIMEOUT, None, "")
    ensures ReadMany("", ending, 1) == None
  {
  }

  // Reading a concatenation of messages gives back exactly those messages, in order, and no more.
  lemma {:induction false} StreamRoundTrip(ms: seq<Message>, ending: Ending)
    requires forall m :: m in ms ==> Sendable(m)
    ensures ReadMany(Stream(ms), ending, |ms|) == Some((NormalAll(ms), ""))
    ensures ReadMany(Stream(ms), ending, |ms| + 1) == None
    decreases |ms|
  {
    if ms == [] {
      Drained(ending);
    } else {
      var rest := ms[1..];
      ReceiveOne(ms[0], Stream(rest), ending);
      StreamRoundTrip(rest, ending);
      ReadOneMore(Stream(ms), ending, |rest|, Normal(ms[0]), Stream(rest));
      ReadOneMore(Stream(ms), ending, |ms|, Normal(ms[0]), Stream(rest));
    }
  }

  // The writer's limit and the reader's agree: a line is taken whole exactly when it is short
  // enough to have been written.
  lemma LimitsAgree(line: string, rest: string, ending: Ending)
    requires '\n' !in line
    ensures |line + "\n"| < MAX_MSG_LEN <==> Receive(line + "\n" + rest, ending).rest == rest
    ensures |line + "\n"| < MAX_MSG_LEN ==> Receive(line + "\n" + rest, ending).msg == Decode(line + "\n")
  {
    FindFirst(line, rest, '\n');
    assert line + "\n" + rest == line + ['\n'] + rest;
    assert (line + "\n" + rest)[..|line| + 1] == line + "\n";
    assert (line + "\n" + rest)[|line| + 1..] == rest;
  }
}
