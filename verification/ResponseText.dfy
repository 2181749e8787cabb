/**
 The text of a response is JSON: read from the left, it gives back the response.
 */
module ResponseText {
  import opened Wrappers
  import opened ResponseTree

  datatype Reading<T> = Read(value: T, rest: string) | Unread

  predicate Starts(text: string, c: char) {
    text != "" && text[0] == c
  }

  /** What may follow a value inside an object or a list, or nothing. */
  predicate Ends(text: string) {
    text == "" || text[0] == ',' || text[0] == ']' || text[0] == '}'
  }

  // ----- a reader -----

  /** The text before the next quote. */
  function BeforeQuote(text: string): string {
    if text == "" || text[0] == '"' then "" else [text[0]] + BeforeQuote(text[1..])
  }

  /** A string in quotes, with a backslash before each quote inside; the length it has. */
  function StringLength(text: string): nat {
    if text == "" then 0
    else if text[0] == '"' then 1
    else if text[0] == '\\' && |text| > 1 then 2 + StringLength(text[2..])
    else 1 + StringLength(text[1..])
  }

  /** Characters up to the next comma or bracket. */
  function WordLength(text: string): (n: nat)
    ensures n <= |text|
  {
    if Ends(text) then 0 else 1 + WordLength(text[1..])
  }

  function ReadScalar(text: string): (r: Reading<Json>)
    ensures r.Read? ==> |r.rest| < |text|
  {
    if Starts(text, '"') then
      var n := 1 + StringLength(text[1..]);
      if n <= |text| then Read(JsonText(text[..n]), text[n..]) else Unread
    else
      var n := WordLength(text);
      if n == 0 then Unread
      else Read(if text[..n] == "null" then JsonNull else JsonText(text[..n]), text[n..])
  }

  function ReadValue(text: string): (r: Reading<Json>)
    ensures r.Read? ==> |r.rest| < |text|
    decreases |text|, 0
  {
    if Starts(text, '{') then
      if Starts(text[1..], '}') then Read(JsonObject([]), text[2..])
      else
        var members := ReadMembers(text[1..]);
        if members.Read? then Read(JsonObject(members.value), members.rest) else Unread
    else if Starts(text, '[') then
      if Starts(text[1..], ']') then Read(JsonArray([]), text[2..])
      else
        var items := ReadItems(text[1..]);
        if items.Read? then Read(JsonArray(items.value), items.rest) else Unread
    else ReadScalar(text)
  }

  /** A name in quotes, and a colon. */
  function ReadKey(text: string): (r: Reading<string>)
    ensures r.Read? ==> |r.rest| < |text|
  {
    if !Starts(text, '"') then Unread
    else
      var name := BeforeQuote(text[1..]);
      var n := 1 + |name|;
      if n + 2 <= |text| && text[n] == '"' && text[n + 1] == ':' then Read(name, text[n + 2..]) else Unread
  }

  function ReadMembers(text: string): (r: Reading<seq<(string, Json)>>)
    ensures r.Read? ==> |r.rest| < |text|
    decreases |text|, 1
  {
    var key := ReadKey(text);
    if key.Unread? then Unread
    else
      var value := ReadValue(key.rest);
      if value.Unread? then Unread
      else if Starts(value.rest, '}') then Read([(key.value, value.value)], value.rest[1..])
      else if Starts(value.rest, ',') then
        var more := ReadMembers(value.rest[1..]);
        if more.Read? then Read([(key.value, value.value)] + more.value, more.rest) else Unread
      else Unread
  }

  function ReadItems(text: string): (r: Reading<seq<Json>>)
    ensures r.Read? ==> |r.rest| < |text|
    decreases |text|, 1
  {
    var value := ReadValue(text);
    if value.Unread? then Unread
    else if Starts(value.rest, ']') then Read([value.value], value.rest[1..])
    else if Starts(value.rest, ',') then
      var more := ReadItems(value.rest[1..]);
      if more.Read? then Read([value.value] + more.value, more.rest) else Unread
    else Unread
  }

  // ----- what can be read back -----

  /** The encoding of a leaf is a JSON value by itself, whatever follows. */
  ghost predicate LeafReads(text: string) {
    ReadValue(text).Read? && forall rest :: Ends(rest) ==> ReadValue(text + rest) == Read(ReadValue(text).value, rest)
  }

  /** Keys have no quotes, leaves are JSON, and every field has a value. */
  ghost predicate Readable(j: Json) {
    match j
    case JsonObject(members) => forall i :: 0 <= i < |members| ==> '"' !in members[i].0 && Readable(members[i].1)
    case JsonArray(items) => forall i :: 0 <= i < |items| ==> Readable(items[i])
    case JsonText(text) => LeafReads(text)
    case JsonNull => true
    case JsonAbsent => false
  }

  /** The response with its leaves as what they encode. */
  function Restored(j: Json): Json
    decreases j, 0
  {
    match j
    case JsonObject(members) => JsonObject(RestoredMembers(members))
    case JsonArray(items) => JsonArray(RestoredItems(items))
    case JsonText(text) => var r := ReadValue(text); if r.Read? then r.value else JsonAbsent
    case _ => j
  }

  function RestoredMembers(members: seq<(string, Json)>): seq<(string, Json)>
    decreases members, 1
  {
    if members == [] then [] else [RestoredMember(members[0])] + RestoredMembers(members[1..])
  }

  function RestoredMember(m: (string, Json)): (string, Json)
    decreases m, 0
  {
    (m.0, Restored(m.1))
  }

  function RestoredItems(items: seq<Json>): seq<Json>
    decreases items, 1
  {
    if items == [] then [] else [Restored(items[0])] + RestoredItems(items[1..])
  }

  // ----- text from the left -----

  lemma {:induction false} MembersFromLeft(m: (string, Json), members: seq<(string, Json)>)
    ensures RenderMembers([m] + members) ==
            RenderMember(m) + (if members == [] then "" else "," + RenderMembers(members))
  {
    hide RenderMember;
    var all := [m] + members;
    if members == [] {
      assert all[..0] == [];
      assert RenderMembers([]) + "" + RenderMember(m) == RenderMember(m);
    } else {
      var n := |members| - 1;
      assert all[..n + 1] == [m] + members[..n];
      MembersFromLeft(m, members[..n]);
      var first, last := RenderMember(m), RenderMember(members[n]);
      if n == 0 {
        assert members[..n] == [];
        assert (first + "") + "," + last == first + ("," + ("" + "" + last));
      } else {
        assert (first + ("," + RenderMembers(members[..n]))) + "," + last ==
               first + ("," + (RenderMembers(members[..n]) + "," + last));
      }
    }
  }

  lemma {:induction false} ItemsFromLeft(x: Json, items: seq<Json>)
    ensures RenderItems([x] + items) == Render(x) + (if items == [] then "" else "," + RenderItems(items))
  {
    hide Render;
    var all := [x] + items;
    if items == [] {
      assert all[..0] == [];
      assert RenderItems([]) + "" + Render(x) == Render(x);
    } else {
      var n := |items| - 1;
      assert all[..n + 1] == [x] + items[..n];
      ItemsFromLeft(x, items[..n]);
      var first, last := Render(x), Render(items[n]);
      if n == 0 {
        assert items[..n] == [];
        assert (first + "") + "," + last == first + ("," + ("" + "" + last));
      } else {
        assert (first + ("," + RenderItems(items[..n]))) + "," + last ==
               first + ("," + (RenderItems(items[..n]) + "," + last));
      }
    }
  }

  // ----- reading back -----

  lemma {:induction false} NameIsRead(name: string, rest: string)
    requires '"' !in name
    ensures BeforeQuote(name + "\"" + rest) == name
  {
    var text := name + "\"" + rest;
    if name != "" {
      NameIsRead(name[1..], rest);
      assert text[1..] == name[1..] + "\"" + rest;
      assert text[0] == name[0] && name == [name[0]] + name[1..];
    }
  }

  lemma KeyIsRead(alias: string, rest: string)
    requires '"' !in alias
    ensures ReadKey(Key(alias) + rest) == Read(alias, rest)
  {
    var text := Key(alias) + rest;
    assert text[1..] == alias + "\"" + (":" + rest);
    NameIsRead(alias, ":" + rest);
    assert text[1 + |alias| + 2..] == rest;
  }

  lemma {:induction false} ValueIsRead(j: Json, rest: string)
    requires Readable(j) && Ends(rest)
    ensures ReadValue(Render(j) + rest) == Read(Restored(j), rest)
    decreases j, 0
  {
    hide ReadMembers, ReadItems, RenderMembers, RenderItems, ReadScalar, LeafReads, RestoredMembers, RestoredItems;
    match j
    case JsonText(text) => LeafIsRead(text, rest);
    case JsonNull => NullIsRead(rest);
    case JsonObject(members) => ObjectIsRead(members, rest);
    case JsonArray(items) => ArrayIsRead(items, rest);
  }

  lemma LeafIsRead(text: string, rest: string)
    requires LeafReads(text) && Ends(rest)
    ensures ReadValue(text + rest) == Read(Restored(JsonText(text)), rest)
  {
    hide ReadValue;
  }

  lemma NullIsRead(rest: string)
    requires Ends(rest)
    ensures ReadValue("null" + rest) == Read(JsonNull, rest)
  {
    var text := "null" + rest;
    var ull, ll, l := "ull" + rest, "ll" + rest, "l" + rest;
    assert l[1..] == rest && ll[1..] == l && ull[1..] == ll && text[1..] == ull;
    assert WordLength(l) == 1;
    assert WordLength(ull) == 3;
    assert WordLength(text) == 4;
    assert text[..4] == "null" && text[4..] == rest;
  }

  lemma NoMembersRead(rest: string)
    ensures ReadValue("{" + RenderMembers([]) + "}" + rest) == Read(JsonObject([]), rest)
    ensures ReadValue("[" + RenderItems([]) + "]" + rest) == Read(JsonArray([]), rest)
  {
    var braces, brackets := "{" + RenderMembers([]) + "}" + rest, "[" + RenderItems([]) + "]" + rest;
    assert braces[1..] == "}" + rest && braces[2..] == rest;
    assert brackets[1..] == "]" + rest && brackets[2..] == rest;
  }

  lemma {:induction false} ObjectIsRead(members: seq<(string, Json)>, rest: string)
    requires forall i :: 0 <= i < |members| ==> '"' !in members[i].0 && Readable(members[i].1)
    ensures ReadValue("{" + RenderMembers(members) + "}" + rest) == Read(JsonObject(RestoredMembers(members)), rest)
    decreases members, 2
  {
    hide ReadMembers, RenderMembers, Readable, ReadScalar;
    if members == [] {
      NoMembersRead(rest);
    } else {
      var text := "{" + RenderMembers(members) + "}" + rest;
      assert text[1..] == RenderMembers(members) + "}" + rest;
      MembersBegin(members, "}" + rest);
      MembersAreRead(members, rest);
    }
  }

  lemma MembersBegin(members: seq<(string, Json)>, rest: string)
    requires members != []
    ensures Starts(RenderMembers(members) + rest, '"')
  {
    hide RenderMembers, Render;
    assert members == [members[0]] + members[1..];
    MembersFromLeft(members[0], members[1..]);
  }

  lemma {:induction false} MembersAreRead(members: seq<(string, Json)>, rest: string)
    requires members != [] && forall i :: 0 <= i < |members| ==> '"' !in members[i].0 && Readable(members[i].1)
    ensures ReadMembers(RenderMembers(members) + "}" + rest) == Read(RestoredMembers(members), rest)
    decreases members, 1
  {
    hide ReadValue, ReadKey, Render, RenderMembers, Readable, RestoredMember, Key;
    var m, others := members[0], members[1..];
    var after := (if others == [] then "" else "," + RenderMembers(others)) + "}" + rest;
    assert members == [m] + others;
    MembersFromLeft(m, others);
    var text := RenderMembers(members) + "}" + rest;
    assert text == RenderMember(m) + after;
    if others == [] {
      assert after == "}" + rest && after[1..] == rest;
    } else {
      assert after == "," + RenderMembers(others) + "}" + rest;
      assert after[1..] == RenderMembers(others) + "}" + rest;
      MembersAreRead(others, rest);
    }
    MemberIsRead(m, after);
    NothingRestored();
    assert RestoredMembers(members) == [RestoredMember(m)] + RestoredMembers(others);
    MembersStep(text, ReadKey(text).rest, RestoredMember(m), after);
    assert [RestoredMember(m)] + [] == [RestoredMember(m)];
  }

  /** One member, and what follows it. */
  lemma MembersStep(text: string, rest: string, m: (string, Json), after: string)
    requires ReadKey(text) == Read(m.0, rest) && ReadValue(rest) == Read(m.1, after)
    ensures Starts(after, '}') ==> ReadMembers(text) == Read([m], after[1..])
    ensures Starts(after, ',') ==>
              (var more := ReadMembers(after[1..]);
               ReadMembers(text) == if more.Read? then Read([m] + more.value, more.rest) else Unread)
  {
    hide ReadValue, ReadKey;
  }

  lemma {:induction false} MemberIsRead(m: (string, Json), rest: string)
    requires '"' !in m.0 && Readable(m.1) && Ends(rest)
    ensures (var text := RenderMember(m) + rest; var key := ReadKey(text);
             && key == Read(m.0, Render(m.1) + rest) && m.0 == RestoredMember(m).0
             && ReadValue(key.rest) == Read(RestoredMember(m).1, rest))
    decreases m, 0
  {
    hide ReadValue, ReadKey, Render, Readable, Restored, Key;
    assert RenderMember(m) + rest == Key(m.0) + (Render(m.1) + rest);
    KeyIsRead(m.0, Render(m.1) + rest);
    ValueIsRead(m.1, rest);
  }

  lemma {:induction false} ArrayIsRead(items: seq<Json>, rest: string)
    requires forall i :: 0 <= i < |items| ==> Readable(items[i])
    ensures ReadValue("[" + RenderItems(items) + "]" + rest) == Read(JsonArray(RestoredItems(items)), rest)
    decreases items, 2
  {
    hide ReadItems, RenderItems, Readable, ReadScalar;
    if items == [] {
      NoMembersRead(rest);
    } else {
      var text := "[" + RenderItems(items) + "]" + rest;
      assert text[1..] == RenderItems(items) + "]" + rest;
      ItemsBegin(items, "]" + rest);
      ItemsAreRead(items, rest);
    }
  }

  lemma ItemsBegin(items: seq<Json>, rest: string)
    requires items != [] && Readable(items[0])
    ensures !Starts(RenderItems(items) + rest, ']')
  {
    hide RenderItems, Render, LeafReads;
    assert items == [items[0]] + items[1..];
    ItemsFromLeft(items[0], items[1..]);
    ValueBegins(items[0]);
  }

  lemma ValueBegins(j: Json)
    requires Readable(j)
    ensures Render(j) != "" && !Ends(Render(j))
  {
    hide RenderMembers, RenderItems, ReadMembers, ReadItems, StringLength;
    if j.JsonText? {
      assert ReadValue(j.text).Read?;
    }
  }

  lemma {:induction false} ItemsAreRead(items: seq<Json>, rest: string)
    requires items != [] && forall i :: 0 <= i < |items| ==> Readable(items[i])
    ensures ReadItems(RenderItems(items) + "]" + rest) == Read(RestoredItems(items), rest)
    decreases items, 1
  {
    hide ReadValue, Render, RenderItems, Readable, Restored;
    var x, others := items[0], items[1..];
    var after := (if others == [] then "" else "," + RenderItems(others)) + "]" + rest;
    assert items == [x] + others;
    ItemsFromLeft(x, others);
    var text := RenderItems(items) + "]" + rest;
    assert text == Render(x) + after;
    ValueIsRead(x, after);
    if others == [] {
      assert after == "]" + rest && after[1..] == rest;
    } else {
      assert after == "," + RenderItems(others) + "]" + rest;
      assert after[1..] == RenderItems(others) + "]" + rest;
      ItemsAreRead(others, rest);
    }
    NothingRestored();
    assert RestoredItems(items) == [Restored(x)] + RestoredItems(others);
    ItemsStep(text, Restored(x), after);
    assert [Restored(x)] + [] == [Restored(x)];
  }

  lemma NothingRestored()
    ensures RestoredItems([]) == [] && RestoredMembers([]) == []
  {
  }

  /** One item, and what follows it. */
  lemma ItemsStep(text: string, x: Json, after: string)
    requires ReadValue(text) == Read(x, after)
    ensures Starts(after, ']') ==> ReadItems(text) == Read([x], after[1..])
    ensures Starts(after, ',') ==>
              (var more := ReadItems(after[1..]);
               ReadItems(text) == if more.Read? then Read([x] + more.value, more.rest) else Unread)
  {
    hide ReadValue;
  }

  // ----- which leaves can be read -----

  /** Behind the opening quote: a string in which a backslash stands before each quote but the last. */
  predicate Closes(s: string) {
    s != "" &&
    if s[0] == '"' then |s| == 1
    else if s[0] == '\\' then |s| > 1 && Closes(s[2..])
    else Closes(s[1..])
  }

  /** A string in quotes, or a number or another word. */
  predicate IsScalar(text: string) {
    text != "" &&
    if text[0] == '"' then Closes(text[1..])
    else text[0] != '{' && text[0] != '[' && ',' !in text && ']' !in text && '}' !in text
  }

  lemma {:induction false} ClosedLength(s: string, rest: string)
    requires Closes(s)
    ensures StringLength(s + rest) == |s|
  {
    var text := s + rest;
    if s[0] == '"' {
    } else if s[0] == '\\' {
      ClosedLength(s[2..], rest);
      assert text[2..] == s[2..] + rest;
    } else {
      ClosedLength(s[1..], rest);
      assert text[1..] == s[1..] + rest;
    }
  }

  lemma {:induction false} WordEnds(s: string, rest: string)
    requires ',' !in s && ']' !in s && '}' !in s && Ends(rest)
    ensures WordLength(s + rest) == |s|
  {
    if s == "" {
      assert s + rest == rest;
    } else {
      assert (s + rest)[0] in s;
      WordEnds(s[1..], rest);
      assert (s + rest)[1..] == s[1..] + rest;
    }
  }

  lemma ScalarIsRead(text: string, rest: string)
    requires IsScalar(text) && Ends(rest)
    ensures ReadValue(text + rest) == Read(if text == "null" then JsonNull else JsonText(text), rest)
  {
    hide ReadMembers, ReadItems, StringLength, WordLength, Closes;
    assert (text + rest)[..|text|] == text && (text + rest)[|text|..] == rest;
    if text[0] == '"' {
      ClosedLength(text[1..], rest);
      assert (text + rest)[1..] == text[1..] + rest;
    } else {
      WordEnds(text, rest);
    }
  }

  /** Numbers, words and strings are read as they are. */
  lemma ScalarReads(text: string)
    requires IsScalar(text)
    ensures LeafReads(text) && ReadValue(text).value == if text == "null" then JsonNull else JsonText(text)
  {
    hide ReadValue, IsScalar;
    assert text + "" == text;
    ScalarIsRead(text, "");
    forall rest | Ends(rest)
      ensures ReadValue(text + rest) == Read(ReadValue(text).value, rest)
    {
      ScalarIsRead(text, rest);
    }
  }

  /** Whatever response is written, its text is read as that response. */
  lemma TextIsRead(j: Json)
    requires Readable(j)
    ensures ReadValue(Render(j)) == Read(Restored(j), "")
  {
    hide ReadValue, Render, Restored, Readable;
    ValueIsRead(j, "");
    assert Render(j) + "" == Render(j);
  }
}
