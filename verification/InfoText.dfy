/** The text of INFO replies and what a hub reads out of it (hub.c, bulb.c, window.c, fridge.c).
    A hub looks for words such as "state=on" anywhere in a child's reply; the lemmas below show
    that it finds them exactly when the child printed that state, whatever numbers stand around. */
module InfoText {
  import opened Domotics
  import opened Numerals
  import Wire

  // ---------------------------------------------------------------- what the devices print

  ghost const PRINTED := {"on", "open", "off", "closed", "unknown", "manual_override"}

  function StateWord(kind: DeviceType, state: DeviceState): (word: string)
    ensures word in PRINTED
  {
    match kind
    case Window => if state == Open then "open" else "closed"
    case Fridge => if state == On then "open" else "closed"
    case _ => if state == On then "on" else if state == Off then "off" else "unknown"
  }

  // The words for each state.
  lemma WordsForStates()
    ensures StateWord(Bulb, On) == StateWord(Hub, On) == "on" && StateWord(Bulb, Off) == StateWord(Hub, Off) == "off"
    ensures StateWord(Window, Open) == StateWord(Fridge, On) == "open"
    ensures StateWord(Window, Closed) == StateWord(Fridge, Off) == "closed"
  {
  }

  function Pair(key: string, value: string): string {
    key + "=" + value
  }

  function Number(key: string, n: int): string {
    Pair(key, Decimal(n))
  }

  // What a kind of device adds to its reply; `n` holds the numbers.
  function Extras(kind: DeviceType, override: bool, n: seq<int>): seq<string>
    requires |n| == 6
  {
    match kind
    case Bulb => [Pair("manual_override", if override then "true" else "false"), Number("time", n[0])]
    case Window => [Number("time", n[0]), Number("open_switch", n[1]), Number("close_switch", n[2])]
    case Fridge => [Number("time_since_open", n[0]), Number("delay", n[1]), Pair("time", ""), Decimal(n[2]),
                    Number("perc", n[3]), Number("temp", n[4]), Number("thermostat", n[5])]
    case _ => []
  }

  function KindWord(kind: DeviceType): string {
    match kind
    case Bulb => "bulb"
    case Window => "window"
    case Fridge => "fridge"
    case _ => "hub"
  }

  // The words of a reply, which single spaces separate.
  function Words(kind: DeviceType, id: int, parent: int, word: string, override: bool, n: seq<int>): seq<string>
    requires |n| == 6
  {
    [KindWord(kind), Number("id", id), Number("parent", parent), Pair("state", word)] + Extras(kind, override, n)
  }

  function Text(kind: DeviceType, id: int, parent: int, word: string, override: bool, n: seq<int>): string
    requires |n| == 6
  {
    Spaced(Words(kind, id, parent, word, override, n))
  }

  function Spaced(words: seq<string>): string {
    if words == [] then "" else if |words| == 1 then words[0] else words[0] + " " + Spaced(words[1..])
  }

  // ---------------------------------------------------------------- what a hub reads

  // strstr(text, key) != NULL.
  predicate Contains(text: string, key: string) {
    exists i :: 0 <= i <= |text| && key <= text[i..]
  }

  // strstr(text, "state=" word) != NULL.
  predicate Says(text: string, word: string) {
    Contains(text, Pair("state", word))
  }

  function ReadState(text: string): Option<DeviceState> {
    if Says(text, "on") || Says(text, "open") then Some(On)
    else if Says(text, "off") || Says(text, "closed") then Some(Off)
    else None
  }

  // The state a printed word stands for: windows and fridges print "open" for on.
  function WordReads(word: string): Option<DeviceState> {
    if word == "on" || word == "open" then Some(On) else if word == "off" || word == "closed" then Some(Off) else None
  }

  function Reading(kind: DeviceType, state: DeviceState): Option<DeviceState> {
    WordReads(StateWord(kind, state))
  }

  // ---------------------------------------------------------------- finding a word

  // A key without spaces lies inside one word.
  lemma AcrossSpace(a: string, b: string, key: string)
    requires ' ' !in key && key != ""
    ensures Contains(a + " " + b, key) <==> Contains(a, key) || Contains(b, key)
  {
    var text := a + " " + b;
    if i :| 0 <= i <= |text| && key <= text[i..] {
      forall k | i <= k < i + |key|
        ensures text[k] != ' '
      {
        assert text[k] == text[i..][k - i] == key[k - i];
      }
      assert text[|a|] == ' ';
      if i <= |a| {
        assert i + |key| <= |a|;
        assert key <= a[i..];
      } else {
        assert text[i..] == b[i - |a| - 1..];
      }
    }
    if i :| 0 <= i <= |a| && key <= a[i..] {
      assert text[i..] == a[i..] + (" " + b);
    }
    if i :| 0 <= i <= |b| && key <= b[i..] {
      assert text[i + |a| + 1..] == b[i..];
    }
  }

  lemma {:induction false} AmongWords(words: seq<string>, key: string)
    requires ' ' !in key && key != ""
    ensures Contains(Spaced(words), key) <==> exists k :: 0 <= k < |words| && Contains(words[k], key)
  {
    if |words| == 0 {
    } else if |words| == 1 {
    } else {
      AcrossSpace(words[0], Spaced(words[1..]), key);
      AmongWords(words[1..], key);
    }
  }

  ghost predicate EndsWith(s: string, end: string) {
    |end| <= |s| && s[|s| - |end|..] == end
  }

  // Inside key=value a name=start is found only with the two equals signs on each other.
  lemma InsidePair(key: string, value: string, name: string, start: string)
    requires '=' !in key && '=' !in value && '=' !in name && '=' !in start
    ensures Contains(Pair(key, value), Pair(name, start)) <==> EndsWith(key, name) && start <= value
  {
    var text, looked := Pair(key, value), Pair(name, start);
    assert looked[|name|] == '=';
    if i :| 0 <= i <= |text| && looked <= text[i..] {
      assert text[i + |name|] == text[i..][|name|] == '=';
      assert i + |name| == |key|;
      assert key[i..] == text[i..][..|name|] == looked[..|name|] == name;
      assert value == text[i..][|name| + 1..];
      assert start == looked[|name| + 1..];
    }
    if EndsWith(key, name) && start <= value {
      assert text[|key| - |name|..] == name + "=" + value;
      assert looked <= text[|key| - |name|..];
    }
  }

  // A word in which no state can be found.
  ghost predicate Quiet(word: string) {
    !Contains(word, "state=")
  }

  lemma QuietWords(word: string, start: string)
    requires Quiet(word)
    ensures !Contains(word, Pair("state", start))
  {
    forall i | 0 <= i <= |word|
      ensures !(Pair("state", start) <= word[i..])
    {
      assert "state=" <= Pair("state", start);
    }
  }

  lemma PairIsQuiet(key: string, value: string)
    requires '=' !in key && '=' !in value && 2 <= |key| && key[|key| - 2] != 't'
    ensures Quiet(Pair(key, value))
  {
    InsidePair(key, value, "state", "");
    assert "state=" == Pair("state", "");
    assert "state"[3] == 't';
    assert !EndsWith(key, "state");
  }

  lemma NumberIsQuiet(key: string, n: int)
    requires '=' !in key && 2 <= |key| && key[|key| - 2] != 't'
    ensures Quiet(Number(key, n))
  {
    NumeralIsQuiet(n);
    PairIsQuiet(key, Decimal(n));
  }

  lemma NumeralIsQuiet(n: int)
    ensures '=' !in Decimal(n) && Quiet(Decimal(n))
  {
    NameIsQuiet(Decimal(n));
  }

  lemma NameIsQuiet(word: string)
    requires '=' !in word
    ensures Quiet(word)
  {
    forall i | 0 <= i <= |word|
      ensures !("state=" <= word[i..])
    {
      assert "state="[5] == '=';
      assert 5 < |word| - i ==> word[i..][5] == word[i + 5];
    }
  }

  lemma BulbQuiet(override: bool, n: seq<int>)
    requires |n| == 6
    ensures Quiet(Pair("manual_override", if override then "true" else "false")) && Quiet(Number("time", n[0]))
  {
    PairIsQuiet("manual_override", if override then "true" else "false");
    NumberIsQuiet("time", n[0]);
  }

  lemma WindowQuiet(n: seq<int>)
    requires |n| == 6
    ensures Quiet(Number("time", n[0])) && Quiet(Number("open_switch", n[1])) && Quiet(Number("close_switch", n[2]))
  {
    NumberIsQuiet("time", n[0]);
    NumberIsQuiet("open_switch", n[1]);
    NumberIsQuiet("close_switch", n[2]);
  }

  lemma FridgeQuiet(n: seq<int>)
    requires |n| == 6
    ensures Quiet(Number("time_since_open", n[0])) && Quiet(Number("delay", n[1])) && Quiet(Pair("time", ""))
    ensures Quiet(Decimal(n[2])) && Quiet(Number("perc", n[3])) && Quiet(Number("temp", n[4]))
    ensures Quiet(Number("thermostat", n[5]))
  {
    NumberIsQuiet("time_since_open", n[0]);
    NumberIsQuiet("delay", n[1]);
    PairIsQuiet("time", "");
    NumeralIsQuiet(n[2]);
    NumberIsQuiet("perc", n[3]);
    NumberIsQuiet("temp", n[4]);
    NumberIsQuiet("thermostat", n[5]);
  }

  lemma ExtrasQuiet(kind: DeviceType, override: bool, n: seq<int>)
    requires |n| == 6
    ensures forall w :: w in Extras(kind, override, n) ==> Quiet(w)
  {
    match kind
    case Bulb => BulbQuiet(override, n);
    case Window => WindowQuiet(n);
    case Fridge => FridgeQuiet(n);
    case _ =>
  }

  // Every word but the fourth is quiet.
  lemma OtherWordsQuiet(kind: DeviceType, id: int, parent: int, word: string, override: bool, n: seq<int>)
    requires |n| == 6
    ensures var w := Words(kind, id, parent, word, override, n);
      forall k :: 0 <= k < |w| && k != 3 ==> Quiet(w[k])
  {
    NameIsQuiet(KindWord(kind));
    NumberIsQuiet("id", id);
    NumberIsQuiet("parent", parent);
    ExtrasQuiet(kind, override, n);
    forall k | 4 <= k < |Words(kind, id, parent, word, override, n)|
      ensures Quiet(Words(kind, id, parent, word, override, n)[k])
    {
      assert Words(kind, id, parent, word, override, n)[k] in Extras(kind, override, n);
    }
  }

  // A state is found exactly when the printed state word starts with it.
  lemma Found(kind: DeviceType, id: int, parent: int, word: string, override: bool, n: seq<int>, start: string)
    requires |n| == 6 && '=' !in word && '=' !in start && ' ' !in start
    ensures Says(Text(kind, id, parent, word, override, n), start) <==> start <= word
  {
    var w := Words(kind, id, parent, word, override, n);
    var looked := Pair("state", start);
    AmongWords(w, looked);
    OtherWordsQuiet(kind, id, parent, word, override, n);
    forall k | 0 <= k < |w| && k != 3
      ensures !Contains(w[k], looked)
    {
      QuietWords(w[k], start);
    }
    InsidePair("state", word, "state", start);
    assert EndsWith("state", "state");
    assert Contains(w[3], looked) <==> start <= word;
  }

  // None of the four words a hub looks for starts another word that is printed.
  lemma Starts(word: string, start: string)
    requires word in PRINTED
    requires start in {"on", "open", "off", "closed"}
    ensures start <= word <==> start == word
  {
    if start <= word {
      assert start[0] == word[0] && start[1] == word[1];
    }
  }

  lemma FoundWord(kind: DeviceType, id: int, parent: int, word: string, override: bool, n: seq<int>, start: string)
    requires |n| == 6 && word in PRINTED
    requires start in {"on", "open", "off", "closed"}
    ensures Says(Text(kind, id, parent, word, override, n), start) <==> start == word
  {
    Found(kind, id, parent, word, override, n, start);
    Starts(word, start);
  }

  lemma SaysOne(text: string, word: string)
    requires Says(text, "on") <==> word == "on"
    requires Says(text, "open") <==> word == "open"
    requires Says(text, "off") <==> word == "off"
    requires Says(text, "closed") <==> word == "closed"
    ensures ReadState(text) == WordReads(word)
  {
  }

  // What a hub reads out of a reply is what the device meant, for every kind of device and
  // whatever its numbers are; from a reply that says manual_override it reads nothing.
  lemma ReadsTheState(kind: DeviceType, id: int, parent: int, word: string, override: bool, n: seq<int>)
    requires |n| == 6 && word in PRINTED
    ensures ReadState(Text(kind, id, parent, word, override, n)) == WordReads(word)
  {
    FoundWord(kind, id, parent, word, override, n, "on");
    FoundWord(kind, id, parent, word, override, n, "open");
    FoundWord(kind, id, parent, word, override, n, "off");
    FoundWord(kind, id, parent, word, override, n, "closed");
    SaysOne(Text(kind, id, parent, word, override, n), word);
  }

  // ---------------------------------------------------------------- reading the rest

  // The words of a text, cut at its spaces.
  function CutWords(text: string): (words: seq<string>)
    ensures words != []
    decreases |text|
  {
    var i := Wire.Find(text, ' ', 0);
    if i == |text| then [text] else [text[..i]] + CutWords(text[i + 1..])
  }

  // What stands behind "key=" in the first word that begins so.
  function ValueOf(words: seq<string>, key: string): Option<string> {
    if words == [] then None
    else if Pair(key, "") <= words[0] then Some(words[0][|key| + 1..])
    else ValueOf(words[1..], key)
  }

  function ReadValue(text: string, key: string): Option<string> {
    ValueOf(CutWords(text), key)
  }

  function ReadNumber(text: string, key: string): Option<int> {
    var value := ReadValue(text, key);
    if value.None? then None else
      var r := ScanInt(value.value, 0);
      if r.Some? && r.value.1 == |value.value| then Some(r.value.0) else None
  }

  function ReadKind(text: string): Option<DeviceType> {
    KindOf(CutWords(text)[0])
  }

  function KindOf(word: string): Option<DeviceType> {
    match word
    case "bulb" => Some(Bulb)
    case "window" => Some(Window)
    case "fridge" => Some(Fridge)
    case "hub" => Some(Hub)
    case _ => None
  }

  lemma {:induction false} CutSpaced(words: seq<string>)
    requires words != [] && forall k :: 0 <= k < |words| ==> ' ' !in words[k]
    ensures CutWords(Spaced(words)) == words
  {
    if |words| > 1 {
      var rest := Spaced(words[1..]);
      CutSpaced(words[1..]);
      Wire.FindFirst(words[0], rest, ' ');
      assert Spaced(words) == words[0] + [' '] + rest;
      assert Spaced(words)[..|words[0]|] == words[0] && Spaced(words)[|words[0]| + 1..] == rest;
    } else {
      Wire.FindNone(words[0], ' ');
      assert words == [words[0]];
    }
  }

  lemma {:induction false} ValueAt(words: seq<string>, i: nat, key: string, value: string)
    requires i < |words| && words[i] == Pair(key, value)
    requires forall k :: 0 <= k < i ==> !(Pair(key, "") <= words[k])
    ensures ValueOf(words, key) == Some(value)
  {
    if i > 0 {
      assert !(Pair(key, "") <= words[0]);
      ValueAt(words[1..], i - 1, key, value);
    } else {
      assert Pair(key, value) == Pair(key, "") + value;
    }
  }

  lemma NumberSolid(key: string, n: int)
    requires ' ' !in key
    ensures ' ' !in Number(key, n) && ' ' !in Decimal(n)
  {
    var s := Decimal(n);
    assert forall k :: 0 <= k < |s| ==> s[k] != ' ';
  }

  lemma ExtrasSolid(kind: DeviceType, override: bool, n: seq<int>)
    requires |n| == 6
    ensures forall w :: w in Extras(kind, override, n) ==> ' ' !in w
  {
    NumberSolid("time", n[0]);
    NumberSolid("open_switch", n[1]);
    NumberSolid("close_switch", n[2]);
    NumberSolid("time_since_open", n[0]);
    NumberSolid("delay", n[1]);
    NumberSolid("", n[2]);
    NumberSolid("perc", n[3]);
    NumberSolid("temp", n[4]);
    NumberSolid("thermostat", n[5]);
  }

  lemma KindRead(kind: DeviceType)
    requires kind.Hub? || kind.Bulb? || kind.Window? || kind.Fridge?
    ensures KindOf(KindWord(kind)) == Some(kind) && KindWord(kind) != "" && KindWord(kind)[0] in {'b', 'w', 'f', 'h'}
  {
  }

  lemma WordSolid(word: string)
    requires word in PRINTED
    ensures ' ' !in Pair("state", word)
  {
    assert ' ' !in word;
  }

  lemma HeadSolid(kind: DeviceType, id: int, parent: int, word: string)
    requires word in PRINTED
    ensures ' ' !in KindWord(kind) && ' ' !in Number("id", id) && ' ' !in Number("parent", parent)
    ensures ' ' !in Pair("state", word)
  {
    NumberSolid("id", id);
    NumberSolid("parent", parent);
    WordSolid(word);
  }

  // A reply is cut into the words it was made of.
  lemma ReplyWords(kind: DeviceType, id: int, parent: int, word: string, override: bool, n: seq<int>)
    requires |n| == 6 && word in PRINTED
    ensures CutWords(Text(kind, id, parent, word, override, n)) == Words(kind, id, parent, word, override, n)
  {
    var head := [KindWord(kind), Number("id", id), Number("parent", parent), Pair("state", word)];
    var extras := Extras(kind, override, n);
    HeadSolid(kind, id, parent, word);
    ExtrasSolid(kind, override, n);
    AllSolid(head, extras);
    CutSpaced(head + extras);
  }

  lemma AllSolid(a: seq<string>, b: seq<string>)
    requires forall w :: w in a ==> ' ' !in w
    requires forall w :: w in b ==> ' ' !in w
    ensures forall k :: 0 <= k < |a + b| ==> ' ' !in (a + b)[k]
  {
    forall k | 0 <= k < |a + b| ensures ' ' !in (a + b)[k] {
      assert (a + b)[k] in a || (a + b)[k] in b;
    }
  }

  lemma HeadValues(words: seq<string>, id: int, parent: int, word: string)
    requires |words| >= 4 && words[0] != "" && words[0][0] in {'b', 'w', 'f', 'h'}
    requires words[1] == Number("id", id) && words[2] == Number("parent", parent) && words[3] == Pair("state", word)
    ensures ValueOf(words, "id") == Some(Decimal(id)) && ValueOf(words, "parent") == Some(Decimal(parent))
    ensures ValueOf(words, "state") == Some(word)
  {
    assert Pair("id", "")[0] == 'i' && Pair("parent", "")[0] == 'p' && Pair("state", "")[0] == 's';
    assert words[1][0] == 'i' && words[2][0] == 'p';
    ValueAt(words, 1, "id", Decimal(id));
    ValueAt(words, 2, "parent", Decimal(parent));
    ValueAt(words, 3, "state", word);
  }

  // From every reply, whatever the state and the other numbers, the kind, the id and the parent are
  // read back, and the state word.
  lemma ReadsTheDevice(kind: DeviceType, id: int, parent: int, word: string, override: bool, n: seq<int>)
    requires |n| == 6 && word in PRINTED && (kind.Hub? || kind.Bulb? || kind.Window? || kind.Fridge?)
    ensures var text := Text(kind, id, parent, word, override, n);
      && ReadKind(text) == Some(kind) && ReadNumber(text, "id") == Some(id)
      && ReadNumber(text, "parent") == Some(parent) && ReadValue(text, "state") == Some(word)
  {
    KindRead(kind);
    ReplyWords(kind, id, parent, word, override, n);
    HeadValues(Words(kind, id, parent, word, override, n), id, parent, word);
    ScanDecimal(id);
    ScanDecimal(parent);
  }

  // A bulb's reply says whether it was switched by hand.
  lemma ReadsTheOverride(id: int, parent: int, word: string, override: bool, n: seq<int>)
    requires |n| == 6 && word in PRINTED
    ensures ReadValue(Text(Bulb, id, parent, word, override, n), "manual_override") ==
      Some(if override then "true" else "false")
  {
    var w := Words(Bulb, id, parent, word, override, n);
    ReplyWords(Bulb, id, parent, word, override, n);
    assert "manual_override="[0] == 'm';
    assert w[0][0] == 'b' && w[1][0] == 'i' && w[2][0] == 'p' && w[3][0] == 's';
    ValueAt(w, 4, "manual_override", if override then "true" else "false");
  }
}
