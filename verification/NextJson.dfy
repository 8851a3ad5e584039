/**
 Finding the end of a JSON value by counting brackets. The scanner does not parse: it is correct
 only because brackets in strings are skipped and quotes in strings are escaped. It is compared
 with values written out by the grammar of RFC 8259, sections 2, 4, 5 and 7.
 */
module NextJson {
  import opened Basics
  import opened TextLines

  // ---------------------------------------------------------------- JSON texts

  /** A character of a string: a plain one, or a backslash and the character it escapes. */
  datatype Unit = Plain(c: char) | Escaped(c: char)

  /** A value with the whitespace between its tokens. */
  datatype Value =
    | Literal(text: string)
    | Str(units: seq<Unit>)
    | Array(blank: string, items: seq<Item>)
    | Object(blank: string, members: seq<Member>)

  datatype Item = Item(before: string, value: Value, after: string)

  datatype Member = Member(before: string, key: seq<Unit>, afterKey: string, item: Item)

  predicate IsBracket(c: char) { c == '{' || c == '[' || c == '}' || c == ']' }

  /** Numbers, true, false and null consist of such characters. */
  predicate LiteralChar(c: char) { !IsBracket(c) && c != '"' && c != ',' && c != ':' && !IsSpace(c) }

  predicate GoodUnits(units: seq<Unit>) {
    forall u :: 0 <= u < |units| && units[u].Plain? ==> units[u].c != '"' && units[u].c != '\\'
  }

  predicate Good(v: Value) {
    match v
    case Literal(text) => text != "" && forall i :: 0 <= i < |text| ==> LiteralChar(text[i])
    case Str(units) => GoodUnits(units)
    case Array(blank, items) => Blank(blank) && forall i :: 0 <= i < |items| ==> GoodItem(items[i])
    case Object(blank, members) => Blank(blank) && forall i :: 0 <= i < |members| ==> GoodMember(members[i])
  }

  predicate GoodItem(item: Item) {
    Blank(item.before) && Good(item.value) && Blank(item.after)
  }

  predicate GoodMember(m: Member) {
    Blank(m.before) && GoodUnits(m.key) && Blank(m.afterKey) && GoodItem(m.item)
  }

  function UnitsText(units: seq<Unit>): string {
    if units == [] then ""
    else (if units[0].Plain? then [units[0].c] else ['\\', units[0].c]) + UnitsText(units[1..])
  }

  function StringText(units: seq<Unit>): string {
    "\"" + UnitsText(units) + "\""
  }

  function Text(v: Value): string
    decreases v, 0
  {
    match v
    case Literal(text) => text
    case Str(units) => StringText(units)
    case Array(blank, items) => "[" + (if items == [] then blank else ItemsText(items)) + "]"
    case Object(blank, members) => "{" + (if members == [] then blank else MembersText(members)) + "}"
  }

  function ItemText(item: Item): string {
    item.before + Text(item.value) + item.after
  }

  function ItemsText(items: seq<Item>): string
    requires items != []
  {
    ItemText(items[0]) + if |items| == 1 then "" else "," + ItemsText(items[1..])
  }

  function MemberText(m: Member): string {
    m.before + StringText(m.key) + m.afterKey + ":" + ItemText(m.item)
  }

  function MembersText(members: seq<Member>): string
    requires members != []
  {
    MemberText(members[0]) + if |members| == 1 then "" else "," + MembersText(members[1..])
  }

  // ---------------------------------------------------------------- what the scanner leaves over

  /** The text behind the closing quote of a string that has been opened. */
  function StringRest(s: string): (r: string)
    ensures |r| <= |s|
  {
    if s == "" then ""
    else if s[0] == '"' then s[1..]
    else if s[0] == '\\' then (if |s| > 1 then StringRest(s[2..]) else "")
    else StringRest(s[1..])
  }

  /** The text behind the bracket that closes as many as have been opened. */
  function InnerRest(s: string, parents: nat): (r: string)
    requires parents > 0
    ensures |r| <= |s|
    decreases |s|
  {
    if s == "" then ""
    else if s[0] == '{' || s[0] == '[' then InnerRest(s[1..], parents + 1)
    else if s[0] == '}' || s[0] == ']' then (if parents == 1 then s[1..] else InnerRest(s[1..], parents - 1))
    else if s[0] == '"' then InnerRest(StringRest(s[1..]), parents)
    else InnerRest(s[1..], parents)
  }

  function ScalarRest(s: string): (r: string)
    ensures |r| <= |s|
  {
    if s == "" || s[0] == ',' || s[0] == ']' then s else ScalarRest(s[1..])
  }

  /** The text behind the value that a text starts with. */
  function ValueRest(s: string): (r: string)
    requires s != ""
    ensures |r| <= |s|
  {
    if s[0] == '{' || s[0] == '[' then InnerRest(s[1..], 1)
    else if s[0] == '"' then StringRest(s[1..])
    else ScalarRest(s)
  }

  // ---------------------------------------------------------------- the scanner

  method NextJSONDefault(text: string, start: nat) returns (ptr: nat)
    requires start < |text| && (text[start] == '{' || text[start] == '[' || text[start] == '"')
    ensures start < ptr <= |text| && text[ptr..] == ValueRest(text[start..])
  {
    hide InnerRest, StringRest;
    ptr := start;
    var parents: nat := 0;
    while ptr != |text|
      invariant start <= ptr <= |text|
      invariant parents == 0 ==> ptr == start
      invariant parents > 0 ==> ptr > start && InnerRest(text[ptr..], parents) == ValueRest(text[start..])
      decreases |text| - ptr
    {
      var c := text[ptr];
      InnerStep(text, ptr, parents);
      ptr := ptr + 1;
      match c {
        case '{' =>
          parents := parents + 1;
          continue;
        case '[' =>
          parents := parents + 1;
          continue;
        case '}' =>
          parents := parents - 1;
        case ']' =>
          parents := parents - 1;
        case '"' =>
          ptr := SkipString(text, ptr);
        case _ =>
          continue;
      }
      if parents == 0 {
        break;
      }
    }
    InnerEnd(parents);
  }

  lemma InnerEnd(parents: nat)
    ensures parents > 0 ==> InnerRest("", parents) == ""
  {
  }

  lemma InnerStep(text: string, ptr: nat, parents: nat)
    requires ptr < |text|
    ensures text[ptr..] != "" && text[ptr..][0] == text[ptr] && text[ptr..][1..] == text[ptr + 1..]
    ensures parents > 0 ==>
      InnerRest(text[ptr..], parents) ==
      var s := text[ptr + 1..];
      if text[ptr] == '{' || text[ptr] == '[' then InnerRest(s, parents + 1)
      else if text[ptr] == '}' || text[ptr] == ']' then (if parents == 1 then s else InnerRest(s, parents - 1))
      else if text[ptr] == '"' then InnerRest(StringRest(s), parents)
      else InnerRest(s, parents)
  {
    hide StringRest;
  }

  /** The inner loop over a string. */
  method SkipString(text: string, start: nat) returns (ptr: nat)
    requires start <= |text|
    ensures start <= ptr <= |text| && text[ptr..] == StringRest(text[start..])
  {
    ptr := start;
    while ptr != |text|
      invariant start <= ptr <= |text| && StringRest(text[ptr..]) == StringRest(text[start..])
      decreases |text| - ptr
    {
      var c := text[ptr];
      assert text[ptr..][1..] == text[ptr + 1..];
      ptr := ptr + 1;
      if c == '"' {
        break;
      } else if c == '\\' {
        if ptr != |text| {
          assert text[ptr - 1..][2..] == text[ptr + 1..];
          ptr := ptr + 1;
        }
      }
    }
  }

  /** The end of the value at a place; none if it reaches to the end of the text. */
  method NextJSON(text: string, start: nat) returns (end: Option<nat>)
    requires start < |text|
    ensures var rest := ValueRest(text[start..]);
      match end case None => rest == "" case Some(ptr) => start <= ptr < |text| && text[ptr..] == rest
  {
    hide InnerRest, StringRest;
    var ptr := start;
    if text[ptr] == '{' || text[ptr] == '[' || text[ptr] == '"' {
      ptr := NextJSONDefault(text, ptr);
    } else {
      while ptr != |text|
        invariant start <= ptr <= |text| && ScalarRest(text[ptr..]) == ScalarRest(text[start..])
        decreases |text| - ptr
      {
        if text[ptr] == ',' || text[ptr] == ']' {
          break;
        }
        assert text[ptr..][1..] == text[ptr + 1..];
        ptr := ptr + 1;
      }
    }
    end := if ptr == |text| then None else Some(ptr);
  }

  // ---------------------------------------------------------------- the scanner finds the end

  lemma FirstOf(c: char, s: string)
    ensures [c] + s != "" && ([c] + s)[0] == c && ([c] + s)[1..] == s
  {
  }

  lemma {:induction false} StringEnds(units: seq<Unit>, rest: string)
    requires GoodUnits(units)
    ensures StringRest(UnitsText(units) + ("\"" + rest)) == rest
  {
    if units == [] {
      assert UnitsText(units) + ("\"" + rest) == "\"" + rest;
    } else {
      StringEnds(units[1..], rest);
      var more := UnitsText(units[1..]) + ("\"" + rest);
      if units[0].Plain? {
        assert UnitsText(units) + ("\"" + rest) == [units[0].c] + more;
      } else {
        assert UnitsText(units) + ("\"" + rest) == ['\\', units[0].c] + more;
      }
    }
  }

  /** Inside brackets the scanner passes over a string, whatever it contains. */
  lemma StringPasses(units: seq<Unit>, rest: string, parents: nat)
    requires GoodUnits(units) && parents > 0
    ensures InnerRest(StringText(units) + rest, parents) == InnerRest(rest, parents)
  {
    hide UnitsText, GoodUnits, StringRest;
    StringEnds(units, rest);
    assert StringText(units) + rest == ['"'] + (UnitsText(units) + ("\"" + rest));
    FirstOf('"', UnitsText(units) + ("\"" + rest));
  }

  predicate Quiet(s: string) {
    forall i :: 0 <= i < |s| ==> !IsBracket(s[i]) && s[i] != '"'
  }

  lemma {:induction false} QuietPasses(s: string, rest: string, parents: nat)
    requires Quiet(s) && parents > 0
    ensures InnerRest(s + rest, parents) == InnerRest(rest, parents)
    decreases |s|
  {
    hide StringRest;
    if s == "" {
      assert s + rest == rest;
    } else {
      assert s + rest == [s[0]] + (s[1..] + rest);
      FirstOf(s[0], s[1..] + rest);
      QuietPasses(s[1..], rest, parents);
    }
  }

  lemma BlankIsQuiet(s: string)
    requires Blank(s)
    ensures Quiet(s)
  {
  }

  /** Inside brackets the scanner passes over a value. */
  lemma {:induction false} ValuePasses(v: Value, rest: string, parents: nat)
    requires Good(v) && parents > 0
    ensures InnerRest(Text(v) + rest, parents) == InnerRest(rest, parents)
    decreases v, 2
  {
    hide InnerRest, ItemsText, MembersText, Blank, GoodUnits, LiteralChar, GoodItem, GoodMember;
    match v
    case Literal(text) =>
      LiteralIsQuiet(text);
      QuietPasses(text, rest, parents);
    case Str(units) =>
      StringPasses(units, rest, parents);
    case Array(_, _) =>
      OpenPasses(v, rest, parents);
      BodyPasses(v, rest, parents + 1);
    case Object(_, _) =>
      OpenPasses(v, rest, parents);
      BodyPasses(v, rest, parents + 1);
  }

  lemma LiteralIsQuiet(text: string)
    requires forall i :: 0 <= i < |text| ==> LiteralChar(text[i])
    ensures Quiet(text)
  {
  }

  /** What stands between the brackets of an array or an object, with the closing one. */
  function Body(v: Value): string
    requires v.Array? || v.Object?
  {
    if v.Array? then (if v.items == [] then v.blank else ItemsText(v.items)) + "]"
    else (if v.members == [] then v.blank else MembersText(v.members)) + "}"
  }

  lemma OpenPasses(v: Value, rest: string, parents: nat)
    requires v.Array? || v.Object?
    ensures Text(v) + rest == [if v.Array? then '[' else '{'] + (Body(v) + rest)
    ensures parents > 0 ==> InnerRest(Text(v) + rest, parents) == InnerRest(Body(v) + rest, parents + 1)
  {
    hide ItemsText, MembersText, StringRest;
    var open := if v.Array? then '[' else '{';
    assert Text(v) + rest == [open] + (Body(v) + rest);
    FirstOf(open, Body(v) + rest);
  }

  lemma ClosePasses(close: char, rest: string, parents: nat)
    requires close == ']' || close == '}'
    requires parents > 0
    ensures InnerRest([close] + rest, parents) == if parents == 1 then rest else InnerRest(rest, parents - 1)
  {
    hide StringRest;
    FirstOf(close, rest);
  }

  /** The rest of an array or object closes one bracket. */
  lemma {:induction false} BodyPasses(v: Value, rest: string, parents: nat)
    requires Good(v) && (v.Array? || v.Object?) && parents > 0
    ensures InnerRest(Body(v) + rest, parents) == if parents == 1 then rest else InnerRest(rest, parents - 1)
    decreases v, 1
  {
    hide InnerRest, ItemsText, MembersText, Blank, GoodItem, GoodMember;
    var close := if v.Array? then ']' else '}';
    var inner := if v.Array? then (if v.items == [] then v.blank else ItemsText(v.items))
                 else if v.members == [] then v.blank else MembersText(v.members);
    Regroup(inner, [close], rest);
    ClosePasses(close, rest, parents);
    if v.Array? && v.items != [] {
      ItemsPass(v.items, [close] + rest, parents);
    } else if v.Object? && v.members != [] {
      MembersPass(v.members, [close] + rest, parents);
    } else {
      BlankIsQuiet(v.blank);
      QuietPasses(v.blank, [close] + rest, parents);
    }
  }

  lemma {:induction false} ItemPasses(item: Item, rest: string, parents: nat)
    requires GoodItem(item) && parents > 0
    ensures InnerRest(ItemText(item) + rest, parents) == InnerRest(rest, parents)
    decreases item, 0
  {
    hide InnerRest, Text, Blank;
    BlankIsQuiet(item.before);
    BlankIsQuiet(item.after);
    assert ItemText(item) + rest == item.before + (Text(item.value) + (item.after + rest));
    QuietPasses(item.before, Text(item.value) + (item.after + rest), parents);
    ValuePasses(item.value, item.after + rest, parents);
    QuietPasses(item.after, rest, parents);
  }

  lemma {:induction false} ItemsPass(items: seq<Item>, rest: string, parents: nat)
    requires items != [] && parents > 0 && forall i :: 0 <= i < |items| ==> GoodItem(items[i])
    ensures InnerRest(ItemsText(items) + rest, parents) == InnerRest(rest, parents)
    decreases items
  {
    hide InnerRest, ItemText, GoodItem;
    if |items| == 1 {
      assert ItemsText(items) + rest == ItemText(items[0]) + rest;
      ItemPasses(items[0], rest, parents);
    } else {
      var later := ItemsText(items[1..]) + rest;
      assert ItemsText(items) + rest == ItemText(items[0]) + ("," + later);
      ItemPasses(items[0], "," + later, parents);
      QuietPasses(",", later, parents);
      ItemsPass(items[1..], rest, parents);
    }
  }

  lemma {:induction false} MemberPasses(m: Member, rest: string, parents: nat)
    requires GoodMember(m) && parents > 0
    ensures InnerRest(MemberText(m) + rest, parents) == InnerRest(rest, parents)
    decreases m, 0
  {
    hide InnerRest, ItemText, StringText, Blank, GoodUnits, GoodItem;
    var last := ItemText(m.item) + rest;
    BlankIsQuiet(m.before);
    BlankIsQuiet(m.afterKey);
    MemberParts(m, rest);
    QuietPasses(m.before, StringText(m.key) + (m.afterKey + (":" + last)), parents);
    StringPasses(m.key, m.afterKey + (":" + last), parents);
    QuietPasses(m.afterKey, ":" + last, parents);
    QuietPasses(":", last, parents);
    ItemPasses(m.item, rest, parents);
  }

  lemma MemberParts(m: Member, rest: string)
    ensures MemberText(m) + rest == m.before + (StringText(m.key) + (m.afterKey + (":" + (ItemText(m.item) + rest))))
  {
    hide ItemText, StringText;
  }

  lemma {:induction false} MembersPass(members: seq<Member>, rest: string, parents: nat)
    requires members != [] && parents > 0 && forall i :: 0 <= i < |members| ==> GoodMember(members[i])
    ensures InnerRest(MembersText(members) + rest, parents) == InnerRest(rest, parents)
    decreases members
  {
    hide InnerRest, MemberText, GoodMember;
    if |members| == 1 {
      assert MembersText(members) + rest == MemberText(members[0]) + rest;
      MemberPasses(members[0], rest, parents);
    } else {
      var later := MembersText(members[1..]) + rest;
      assert MembersText(members) + rest == MemberText(members[0]) + ("," + later);
      MemberPasses(members[0], "," + later, parents);
      QuietPasses(",", later, parents);
      MembersPass(members[1..], rest, parents);
    }
  }

  /** An object, an array or a string ends where the scanner says, whatever it contains and whatever follows. */
  lemma ValueEnds(v: Value, rest: string)
    requires Good(v) && !v.Literal?
    ensures Text(v) + rest != "" && ValueRest(Text(v) + rest) == rest
  {
    hide InnerRest, StringRest, UnitsText, GoodItem, GoodMember, GoodUnits;
    if v.Str? {
      StringEnds(v.units, rest);
      assert Text(v) + rest == ['"'] + (UnitsText(v.units) + ("\"" + rest));
      FirstOf('"', UnitsText(v.units) + ("\"" + rest));
    } else {
      OpenPasses(v, rest, 0);
      FirstOf(if v.Array? then '[' else '{', Body(v) + rest);
      BodyPasses(v, rest, 1);
    }
  }

  /** A string that is cut off has no end before the cut. */
  lemma {:induction false} StringPrefix(p: string, q: string)
    ensures StringRest(p + q) == StringRest(p) + q || (StringRest(p) == "" && |StringRest(p + q)| <= |q|)
    decreases |p|
  {
    if p != "" && p[0] != '"' {
      if p[0] == '\\' {
        if |p| > 1 {
          assert (p + q)[2..] == p[2..] + q;
          StringPrefix(p[2..], q);
        }
      } else {
        assert (p + q)[1..] == p[1..] + q;
        StringPrefix(p[1..], q);
      }
    } else {
      assert p != "" ==> (p + q)[1..] == p[1..] + q;
    }
  }

  lemma {:induction false} InnerPrefix(p: string, q: string, parents: nat)
    requires parents > 0 && |InnerRest(p + q, parents)| <= |q|
    ensures InnerRest(p, parents) == ""
    decreases |p|
  {
    hide StringRest;
    if p != "" {
      assert (p + q)[1..] == p[1..] + q && (p + q)[0] == p[0];
      if p[0] == '{' || p[0] == '[' {
        InnerPrefix(p[1..], q, parents + 1);
      } else if p[0] == '}' || p[0] == ']' {
        if parents > 1 {
          InnerPrefix(p[1..], q, parents - 1);
        }
      } else if p[0] == '"' {
        StringPrefix(p[1..], q);
        if StringRest(p[1..] + q) == StringRest(p[1..]) + q {
          InnerPrefix(StringRest(p[1..]), q, parents);
        } else {
          InnerEnd(parents);
        }
      } else {
        InnerPrefix(p[1..], q, parents);
      }
    }
  }

  /** A value that is cut off, or that nothing follows, has no end: it is left for the next buffer. */
  lemma CutOffValue(v: Value, p: string, q: string)
    requires Good(v) && !v.Literal? && Text(v) == p + q && p != ""
    ensures ValueRest(p) == ""
  {
    hide InnerRest, StringRest, Text;
    assert Text(v) + "" == Text(v);
    ValueEnds(v, "");
    assert (p + q)[1..] == p[1..] + q && (p + q)[0] == p[0];
    FirstChar(v);
    if p[0] == '"' {
      StringPrefix(p[1..], q);
    } else {
      InnerPrefix(p[1..], q, 1);
    }
  }

  lemma FirstChar(v: Value)
    requires Good(v)
    ensures Text(v) != "" && !IsSpace(Text(v)[0]) && !IsSpace(Text(v)[|Text(v)| - 1])
    ensures !v.Literal? ==> Text(v)[0] == '{' || Text(v)[0] == '[' || Text(v)[0] == '"'
    ensures v.Literal? ==> LiteralChar(Text(v)[0])
  {
    hide UnitsText, ItemsText, MembersText;
  }

  /** The scanner stops exactly behind the value if a character follows, and reports no end otherwise. */
  method NextValue(text: string, start: nat, ghost v: Value, ghost rest: string) returns (end: Option<nat>)
    requires start < |text| && text[start..] == Text(v) + rest && Good(v) && !v.Literal?
    ensures end == if rest == "" then None else Some(start + |Text(v)|)
  {
    hide Text, ValueRest;
    ValueEnds(v, rest);
    end := NextJSON(text, start);
    if end.Some? {
      assert |text[start..]| == |Text(v)| + |rest|;
    }
  }

  // ---------------------------------------------------------------- the elements of an array

  datatype Outcome = Fine | UnexpectedCharacter | ObjectTooLong

  /** The elements that are parsed, how that ends, and the text that is left for the next buffer. */
  datatype Split = Split(outcome: Outcome, units: seq<string>, left: string)

  function Cons(unit: string, s: Split): Split {
    s.(units := [unit] + s.units)
  }

  /** What parsing a buffer of an array gives; the first one starts behind the opening bracket. */
  function ArrayUnits(s: string, isLast: bool, limit: nat): Split
    decreases |s|
  {
    var text := TrimLeft(s);
    if text == "" then Split(Fine, [], "")
    else
      var rest := ValueRest(text);
      if rest == "" && |text| > limit then Split(ObjectTooLong, [], "")
      else if rest == "" && !isLast then Split(Fine, [], text)
      else
        var unit := Trim(text[..|text| - |rest|]);
        var after := TrimLeft(rest);
        if after != "" && (after[0] == ',' || after[0] == ']') then
          Cons(unit, ArrayUnits(TrimLeft(after[1..]), isLast, limit))
        else Split(UnexpectedCharacter, [unit], "")
  }

  lemma TrimLeftOf(blank: string, s: string)
    requires Blank(blank) && s != "" && !IsSpace(s[0])
    ensures TrimLeft(blank + s) == s && TrimLeft(s) == s
  {
    hide IsSpace;
    TrimLeftSplit(blank, s);
    TrimLeftSplit("", s);
    assert "" + s == s;
  }

  lemma {:induction false} ScalarPasses(s: string, stop: string)
    requires forall i :: 0 <= i < |s| ==> s[i] != ',' && s[i] != ']'
    requires stop != "" && (stop[0] == ',' || stop[0] == ']')
    ensures ScalarRest(s + stop) == stop
    decreases |s|
  {
    if s == "" {
      assert s + stop == stop;
    } else {
      assert (s + stop)[1..] == s[1..] + stop;
      ScalarPasses(s[1..], stop);
    }
  }

  lemma TrimTo(t: string, blank: string)
    requires t != "" && !IsSpace(t[0]) && !IsSpace(t[|t| - 1]) && Blank(blank)
    ensures Trim(t + blank) == t
  {
    hide IsSpace, Leading, Trailing;
    var s := t + blank;
    assert s[0] == t[0];
    LeadingIs(s, 0);
    assert s[0..] == s;
    assert s[|t| - 1] == t[|t| - 1];
    forall i | |t| <= i < |s| ensures IsSpace(s[i]) {
      assert s[i] == blank[i - |t|];
    }
    TrailingIs(s, |t|);
  }

  /** The text and the end of an element that a text starts with. */
  lemma ElementEnd(v: Value, after: string, stop: string)
    requires Good(v) && Blank(after) && stop != "" && (stop[0] == ',' || stop[0] == ']')
    ensures
      var t := Text(v) + (after + stop);
      && t != "" && !IsSpace(t[0])
      && |ValueRest(t)| <= |t| && Trim(t[..|t| - |ValueRest(t)|]) == Text(v)
      && ValueRest(t) != "" && TrimLeft(ValueRest(t)) == stop
  {
    hide Text, ValueRest, TrimLeft, Trim, IsSpace, Blank, Good;
    FirstChar(v);
    StopIsNoSpace(stop[0]);
    TrimLeftOf(after, stop);
    NoBlank();
    if v.Literal? {
      LiteralRest(v, after, stop);
      CutBefore(Text(v), after, stop);
      TrimTo(Text(v), after);
    } else {
      ValueEnds(v, after + stop);
      CutBefore(Text(v), "", after + stop);
      TrimTo(Text(v), "");
    }
  }

  lemma CutBefore(a: string, b: string, c: string)
    ensures
      var t := a + (b + c);
      t[..|t| - |c|] == a + b && t[|t| - |c|..] == c
    ensures b == "" ==> a + (b + c) == a + c && a + b == a
  {
  }

  /** One element and the character behind it. */
  lemma ElementUnit(item: Item, c: char, more: string, isLast: bool, limit: nat)
    requires GoodItem(item) && (c == ',' || c == ']')
    ensures ArrayUnits(ItemText(item) + ([c] + more), isLast, limit) ==
      Cons(Text(item.value), ArrayUnits(more, isLast, limit))
  {
    hide Text, ValueRest, TrimLeft, Trim, IsSpace, Blank, Good, ArrayUnits;
    var stop := [c] + more;
    var t := Text(item.value) + (item.after + stop);
    ItemParts(item, stop);
    FirstOf(c, more);
    ElementEnd(item.value, item.after, stop);
    TrimLeftOf(item.before, t);
    UnitsStep(item.before + t, isLast, limit);
    TrimmedUnits(more, isLast, limit);
  }

  lemma ItemParts(item: Item, stop: string)
    ensures ItemText(item) + stop == item.before + (Text(item.value) + (item.after + stop))
  {
    hide Text;
  }

  lemma NoBlank()
    ensures Blank("")
  {
  }

  lemma StopIsNoSpace(c: char)
    requires c == ',' || c == ']'
    ensures !IsSpace(c)
  {
  }

  lemma LiteralRest(v: Value, after: string, stop: string)
    requires Good(v) && v.Literal? && Blank(after) && stop != "" && (stop[0] == ',' || stop[0] == ']')
    ensures Text(v) + (after + stop) != "" && ValueRest(Text(v) + (after + stop)) == stop
  {
    FirstChar(v);
    var s := Text(v) + after;
    assert Text(v) + (after + stop) == s + stop;
    forall i | 0 <= i < |s| ensures s[i] != ',' && s[i] != ']' {
      if i < |Text(v)| {
        assert s[i] == v.text[i] && LiteralChar(v.text[i]);
      } else {
        assert s[i] == after[i - |Text(v)|];
      }
    }
    ScalarPasses(s, stop);
    assert (s + stop)[0] == v.text[0];
  }

  function Texts(items: seq<Item>): seq<string> {
    seq(|items|, i requires 0 <= i < |items| => Text(items[i].value))
  }

  lemma TrimmedUnits(s: string, isLast: bool, limit: nat)
    ensures ArrayUnits(TrimLeft(s), isLast, limit) == ArrayUnits(s, isLast, limit)
    ensures Blank(s) ==> ArrayUnits(s, isLast, limit) == Split(Fine, [], "")
  {
    hide ValueRest, Trim, TrimLeft, ArrayUnits, Blank;
    BlankTrims(s);
    TrimTwice(s);
    UnitsStep(s, isLast, limit);
    UnitsStep(TrimLeft(s), isLast, limit);
  }

  lemma TrimTwice(s: string)
    ensures TrimLeft(TrimLeft(s)) == TrimLeft(s)
  {
    if TrimLeft(s) != "" {
      LeadingIs(TrimLeft(s), 0);
    }
  }

  /** An array from behind its opening bracket, with the whitespace behind it. */
  function ArrayText(items: seq<Item>, blank: string): string {
    if items == [] then blank
    else ItemText(items[0]) + ([Stop(items)] + ArrayText(items[1..], blank))
  }

  function Stop(items: seq<Item>): char
    requires items != []
  {
    if |items| == 1 then ']' else ','
  }

  lemma {:induction false} ArrayTextIs(items: seq<Item>, blank: string)
    requires items != []
    ensures ArrayText(items, blank) == ItemsText(items) + ("]" + blank)
  {
    hide ItemText;
    if |items| > 1 {
      ArrayTextIs(items[1..], blank);
      var more := ItemsText(items[1..]);
      Regroup(ItemText(items[0]), "," + more, "]" + blank);
      Regroup(",", more, "]" + blank);
    }
  }

  /** Cutting at the ends that the scanner finds gives exactly the elements of an array, in order. */
  lemma {:induction false} ArrayIsSplit(items: seq<Item>, blank: string, isLast: bool, limit: nat)
    requires Blank(blank) && forall i :: 0 <= i < |items| ==> GoodItem(items[i])
    ensures ArrayUnits(ArrayText(items, blank), isLast, limit) == Split(Fine, Texts(items), "")
    decreases |items|
  {
    hide ArrayUnits, ItemText, TrimLeft, GoodItem, Blank;
    if items == [] {
      TrimmedUnits(blank, isLast, limit);
    } else {
      ElementUnit(items[0], Stop(items), ArrayText(items[1..], blank), isLast, limit);
      ArrayIsSplit(items[1..], blank, isLast, limit);
      assert Texts(items) == [Text(items[0].value)] + Texts(items[1..]);
    }
  }

  method SkipWhitespace(text: string, start: nat) returns (i: nat)
    requires start <= |text|
    ensures start <= i <= |text| && text[i..] == TrimLeft(text[start..])
  {
    hide IsSpace;
    i := start;
    while i != |text| && IsSpace(text[i])
      invariant start <= i <= |text| && forall k :: start <= k < i ==> IsSpace(text[k])
      decreases |text| - i
    {
      i := i + 1;
    }
    ghost var s := text[start..];
    assert i < |text| ==> s[i - start] == text[i];
    assert forall k :: 0 <= k < i - start ==> s[k] == text[start + k];
    assert Leading(s) == i - start;
  }

  /** Parsing a buffer of an array: the loop over its elements. */
  method ParseArray(text: string, isLast: bool, limit: nat) returns (r: Split)
    ensures r == ArrayUnits(text, isLast, limit)
  {
    hide ValueRest, Trim, TrimLeft, ArrayUnits, Join, Cons;
    var units: seq<string> := [];
    var offset := 0;
    assert text[0..] == text;
    ghost var all := ArrayUnits(text, isLast, limit);
    Joined([], all);
    while true
      invariant offset <= |text| && all == Join(units, ArrayUnits(text[offset..], isLast, limit))
      decreases |text| - offset
    {
      UnitsStep(text[offset..], isLast, limit);
      JoinLast(units);
      offset := SkipWhitespace(text, offset);
      if offset == |text| {
        return Split(Fine, units, "");
      }
      var end := NextJSON(text, offset);
      if end.None? {
        if |text| - offset > limit {
          return Split(ObjectTooLong, units, "");
        }
        if !isLast {
          return Split(Fine, units, text[offset..]);
        }
      }
      var next := if end.Some? then end.value else |text|;
      RestAt(text, offset, next);
      var unit := Trim(text[offset..next]);
      ghost var before := units;
      units := units + [unit];
      offset := SkipWhitespace(text, next);
      if offset < |text| && (text[offset] == ',' || text[offset] == ']') {
        offset := offset + 1;
      } else {
        return Split(UnexpectedCharacter, units, "");
      }
      JoinNext(before, unit, ArrayUnits(TrimLeft(text[offset..]), isLast, limit));
      offset := SkipWhitespace(text, offset);
    }
  }

  function Join(units: seq<string>, s: Split): Split {
    s.(units := units + s.units)
  }

  lemma Joined(none: seq<string>, s: Split)
    requires none == []
    ensures Join(none, s) == s
  {
  }

  lemma JoinLast(units: seq<string>)
    ensures forall outcome, left :: Join(units, Split(outcome, [], left)) == Split(outcome, units, left)
    ensures forall unit ::
      Join(units, Split(UnexpectedCharacter, [unit], "")) == Split(UnexpectedCharacter, units + [unit], "")
  {
  }

  lemma JoinNext(units: seq<string>, unit: string, s: Split)
    ensures Join(units, Cons(unit, s)) == Join(units + [unit], s)
  {
  }

  lemma RestAt(text: string, offset: nat, next: nat)
    requires offset <= next <= |text|
    ensures text[offset..][..|text[offset..]| - |text[next..]|] == text[offset..next]
  {
  }

  lemma UnitsStep(s: string, isLast: bool, limit: nat)
    ensures ArrayUnits(s, isLast, limit) ==
      var text := TrimLeft(s);
      if text == "" then Split(Fine, [], "")
      else
        var rest := ValueRest(text);
        if rest == "" && |text| > limit then Split(ObjectTooLong, [], "")
        else if rest == "" && !isLast then Split(Fine, [], text)
        else
          var unit := Trim(text[..|text| - |rest|]);
          var after := TrimLeft(rest);
          if after != "" && (after[0] == ',' || after[0] == ']') then
            Cons(unit, ArrayUnits(TrimLeft(after[1..]), isLast, limit))
          else Split(UnexpectedCharacter, [unit], "")
  {
    hide ValueRest, Trim, TrimLeft;
  }

  // ---------------------------------------------------------------- an array over several buffers

  /** Scanning an array whose text comes in chunks; the last buffer holds only what is left over. */
  function ArrayScan(left: string, chunks: seq<string>, limit: nat): Split
    decreases |chunks|
  {
    if chunks == [] then ArrayUnits(left, true, limit)
    else
      var r := ArrayUnits(left + chunks[0], false, limit);
      if r.outcome != Fine then r else Join(r.units, ArrayScan(r.left, chunks[1..], limit))
  }

  /**
   What becomes of a buffer that ends some characters before the end of the array. A value that is cut
   off is left for the next buffer, unless it is too long. But if the cut lies behind whitespace behind
   a value that has an end of its own, the end of the buffer is taken for an unexpected character.
   */
  function CutFate(items: seq<Item>, blank: string, behind: nat, limit: nat): Outcome {
    if items == [] then Fine
    else
      var more := 1 + |ArrayText(items[1..], blank)|;
      if behind < more then CutFate(items[1..], blank, behind, limit)
      else
        var item, uncut := items[0], behind - more;
        var whole := |Text(item.value)| + |item.after|;
        if uncut >= whole then Fine
        else if uncut < |item.after| && !item.value.Literal? then UnexpectedCharacter
        else if whole - uncut > limit then ObjectTooLong
        else Fine
  }

  function FirstFault(items: seq<Item>, blank: string, chunks: seq<string>, limit: nat): Outcome
    decreases |chunks|
  {
    if chunks == [] then Fine
    else
      var fate := CutFate(items, blank, |Concat(chunks[1..])|, limit);
      if fate != Fine then fate else FirstFault(items, blank, chunks[1..], limit)
  }

  ghost predicate AllGood(items: seq<Item>, blank: string) {
    Blank(blank) && forall i :: 0 <= i < |items| ==> GoodItem(items[i])
  }

  /** Elements that are left stand at the same distance from the end. */
  ghost predicate SameFates(items: seq<Item>, blank: string, later: seq<Item>, laterBlank: string, most: nat,
                            limit: nat) {
    forall behind: nat :: behind <= most ==>
      CutFate(items, blank, behind, limit) == CutFate(later, laterBlank, behind, limit)
  }

  lemma {:induction false} NoStop(s: string)
    requires forall i :: 0 <= i < |s| ==> s[i] != ',' && s[i] != ']'
    ensures ScalarRest(s) == ""
    decreases |s|
  {
    if s != "" {
      NoStop(s[1..]);
    }
  }

  /** A buffer that ends in an element, seen from the value on. */
  lemma ElementCut(item: Item, q: nat)
    requires GoodItem(item) && 0 < q <= |Text(item.value) + item.after|
    ensures
      var cut := (Text(item.value) + item.after)[..q];
      && cut != "" && !IsSpace(cut[0])
      && if q > |Text(item.value)| && !item.value.Literal? then ValueRest(cut) != "" && Blank(ValueRest(cut))
         else ValueRest(cut) == ""
  {
    hide Text, ValueRest, Blank, IsSpace, Good;
    var v, n := item.value, |Text(item.value)|;
    var cut := (Text(v) + item.after)[..q];
    FirstChar(v);
    if v.Literal? {
      CutLiteral(item, q);
    } else if q > n {
      assert cut == Text(v) + item.after[..q - n];
      ValueEnds(v, item.after[..q - n]);
      BlankPart(item.after, q - n);
    } else {
      assert cut == Text(v)[..q] && Text(v) == Text(v)[..q] + Text(v)[q..];
      CutOffValue(v, Text(v)[..q], Text(v)[q..]);
    }
  }

  lemma BlankPart(s: string, k: nat)
    requires Blank(s) && k <= |s|
    ensures Blank(s[..k]) && Blank(s[k..])
  {
  }

  lemma CutLiteral(item: Item, q: nat)
    requires GoodItem(item) && item.value.Literal? && 0 < q <= |Text(item.value) + item.after|
    ensures ValueRest((Text(item.value) + item.after)[..q]) == ""
  {
    var s, text := Text(item.value) + item.after, item.value.text;
    var cut := s[..q];
    forall i | 0 <= i < |cut| ensures cut[i] != ',' && cut[i] != ']' {
      if i < |text| {
        assert cut[i] == text[i] && LiteralChar(text[i]);
      } else {
        assert cut[i] == item.after[i - |text|];
      }
    }
    NoStop(cut);
    assert cut[0] == text[0] && LiteralChar(text[0]);
  }

  /** What parsing gives for a buffer that ends in its first element. */
  lemma CutUnits(item: Item, p: nat, limit: nat)
    requires GoodItem(item) && p <= |ItemText(item)|
    ensures
      var r := ArrayUnits(ItemText(item)[..p], false, limit);
      var uncut, whole := |ItemText(item)| - p, |Text(item.value)| + |item.after|;
      if uncut >= whole then r == Split(Fine, [], "")
      else if uncut < |item.after| && !item.value.Literal? then r.outcome == UnexpectedCharacter
      else if whole - uncut > limit then r.outcome == ObjectTooLong
      else r == Split(Fine, [], ItemText(item)[|item.before|..p])
  {
    hide Text, ValueRest, TrimLeft, Trim, IsSpace, Blank, Good, ArrayUnits;
    var n, behind := |item.before|, Text(item.value) + item.after;
    assert ItemText(item) == item.before + behind;
    if p <= n {
      assert ItemText(item)[..p] == item.before[..p];
      BlankPart(item.before, p);
      TrimmedUnits(item.before[..p], false, limit);
    } else {
      var cut := behind[..p - n];
      assert ItemText(item)[..p] == item.before + cut && ItemText(item)[n..p] == cut;
      ElementCut(item, p - n);
      TrimLeftOf(item.before, cut);
      UnitsStep(item.before + cut, false, limit);
      BlankTrims(ValueRest(cut));
    }
  }

  lemma ArrayTextParts(items: seq<Item>, blank: string, p: nat)
    requires items != [] && p <= |ArrayText(items, blank)|
    ensures
      var text, first, more := ArrayText(items, blank), ItemText(items[0]), ArrayText(items[1..], blank);
      && |text| == |first| + 1 + |more|
      && (p <= |first| ==> text[..p] == first[..p] && text[p..] == first[p..] + ([Stop(items)] + more))
      && (p > |first| ==>
            && text[..p] == first + ([Stop(items)] + more[..p - |first| - 1])
            && text[p..] == more[p - |first| - 1..])
  {
    hide ItemText;
  }

  /** With less whitespace in front of the first element all fates stay as they are. */
  lemma FatesTrimmed(items: seq<Item>, blank: string, before: string, most: nat, limit: nat)
    requires items != []
    ensures SameFates(items, blank, [items[0].(before := before)] + items[1..], blank, most, limit)
  {
    hide Text;
    assert ([items[0].(before := before)] + items[1..])[1..] == items[1..];
  }

  lemma LaterFates(items: seq<Item>, blank: string, later: seq<Item>, laterBlank: string, most: nat, limit: nat)
    requires items != [] && most <= |ArrayText(items[1..], blank)|
    requires SameFates(items[1..], blank, later, laterBlank, most, limit)
    ensures SameFates(items, blank, later, laterBlank, most, limit)
  {
    hide Text, ArrayText;
    forall behind: nat | behind <= most
      ensures CutFate(items, blank, behind, limit) == CutFate(later, laterBlank, behind, limit)
    {
      assert CutFate(items, blank, behind, limit) == CutFate(items[1..], blank, behind, limit);
    }
  }

  lemma CutInFirst(items: seq<Item>, blank: string, p: nat, limit: nat) returns (later: seq<Item>)
    requires AllGood(items, blank) && items != [] && p <= |ItemText(items[0])|
    ensures
      var text := ArrayText(items, blank);
      p <= |text| &&
      var r := ArrayUnits(text[..p], false, limit);
      && r.outcome == CutFate(items, blank, |text| - p, limit)
      && (r.outcome == Fine ==>
            && AllGood(later, blank) && r.left + text[p..] == ArrayText(later, blank)
            && Texts(items) == r.units + Texts(later) && SameFates(items, blank, later, blank, |text| - p, limit))
  {
    hide ArrayUnits, Text, Blank, Good, SameFates;
    var item, n := items[0], |items[0].before|;
    var first, end := ItemText(item), [Stop(items)] + ArrayText(items[1..], blank);
    ArrayTextParts(items, blank, p);
    CutUnits(item, p, limit);
    var r := ArrayUnits(ArrayText(items, blank)[..p], false, limit);
    var before := if p <= n then item.before[p..] else "";
    later := [item.(before := before)] + items[1..];
    BlankPart(item.before, if p <= n then p else n);
    NoBlank();
    assert later[1..] == items[1..];
    FatesTrimmed(items, blank, before, |ArrayText(items, blank)| - p, limit);
    SameTexts(items, later);
    if r.outcome == Fine {
      Uncut(item, p, before, end);
    }
  }

  lemma SameTexts(items: seq<Item>, later: seq<Item>)
    requires items != [] && later != [] && items[0].value == later[0].value && items[1..] == later[1..]
    ensures Texts(items) == [] + Texts(later)
  {
    hide Text;
  }

  lemma Uncut(item: Item, p: nat, before: string, end: string)
    requires p <= |ItemText(item)|
    requires before == if p <= |item.before| then item.before[p..] else ""
    ensures
      var left := if p <= |item.before| then "" else ItemText(item)[|item.before|..p];
      left + (ItemText(item)[p..] + end) == ItemText(item.(before := before)) + end
  {
    hide Text;
    var behind := Text(item.value) + item.after;
    assert ItemText(item) == item.before + behind && ItemText(item.(before := before)) == before + behind;
    if p <= |item.before| {
      CutInFront(item.before, behind, end, p);
    } else {
      CutBehind(item.before, behind, end, p);
      assert before + behind == behind;
    }
  }

  lemma CutInFront(a: string, b: string, end: string, p: nat)
    requires p <= |a|
    ensures "" + ((a + b)[p..] + end) == a[p..] + b + end
  {
    assert (a + b)[p..] == a[p..] + b;
  }

  lemma CutBehind(a: string, b: string, end: string, p: nat)
    requires |a| < p <= |a + b|
    ensures (a + b)[|a|..p] + ((a + b)[p..] + end) == b + end
  {
    assert (a + b)[|a|..p] + (a + b)[p..] == b;
    Regroup((a + b)[|a|..p], (a + b)[p..], end);
  }

  /** A buffer that ends anywhere in the text of an array. */
  lemma {:induction false} BufferCut(items: seq<Item>, blank: string, p: nat, limit: nat)
    returns (later: seq<Item>, laterBlank: string)
    requires AllGood(items, blank) && p <= |ArrayText(items, blank)|
    ensures
      var text := ArrayText(items, blank);
      var r := ArrayUnits(text[..p], false, limit);
      && r.outcome == CutFate(items, blank, |text| - p, limit)
      && (r.outcome == Fine ==>
            && AllGood(later, laterBlank) && r.left + text[p..] == ArrayText(later, laterBlank)
            && Texts(items) == r.units + Texts(later)
            && SameFates(items, blank, later, laterBlank, |text| - p, limit))
    decreases |items|
  {
    hide ArrayUnits, Text, Blank, GoodItem, SameFates, ItemText;
    if items == [] {
      later, laterBlank := [], blank[p..];
      BlankPart(blank, p);
      TrimmedUnits(blank[..p], false, limit);
      NoFates(blank, laterBlank, |blank| - p, limit);
    } else if p <= |ItemText(items[0])| {
      later := CutInFirst(items, blank, p, limit);
      laterBlank := blank;
    } else {
      var first, more := ItemText(items[0]), ArrayText(items[1..], blank);
      var q := p - |first| - 1;
      ArrayTextParts(items, blank, p);
      later, laterBlank := BufferCut(items[1..], blank, q, limit);
      ElementUnit(items[0], Stop(items), more[..q], false, limit);
      LaterTexts(items);
      if ArrayUnits(more[..q], false, limit).outcome == Fine {
        LaterFates(items, blank, later, laterBlank, |more| - q, limit);
        UnitsFirst(Text(items[0].value), ArrayUnits(more[..q], false, limit).units, Texts(later));
      }
    }
  }

  lemma NoFates(blank: string, laterBlank: string, most: nat, limit: nat)
    ensures SameFates([], blank, [], laterBlank, most, limit)
  {
  }

  lemma LaterTexts(items: seq<Item>)
    requires items != []
    ensures Texts(items) == [Text(items[0].value)] + Texts(items[1..])
  {
    hide Text;
  }

  lemma UnitsFirst(unit: string, units: seq<string>, later: seq<string>)
    ensures [unit] + (units + later) == [unit] + units + later
  {
  }

  lemma {:induction false} SameFaults(items: seq<Item>, blank: string, later: seq<Item>, laterBlank: string,
                                      chunks: seq<string>, limit: nat)
    requires SameFates(items, blank, later, laterBlank, |Concat(chunks)|, limit)
    ensures FirstFault(items, blank, chunks, limit) == FirstFault(later, laterBlank, chunks, limit)
    decreases |chunks|
  {
    hide CutFate;
    if chunks != [] {
      SameFaults(items, blank, later, laterBlank, chunks[1..], limit);
    }
  }

  /** Wherever the buffers are cut, the first cut with a fault decides, and otherwise all elements are found. */
  lemma {:induction false} ArrayScanned(items: seq<Item>, blank: string, left: string, chunks: seq<string>, limit: nat)
    requires AllGood(items, blank) && left + Concat(chunks) == ArrayText(items, blank)
    ensures
      var r := ArrayScan(left, chunks, limit);
      && r.outcome == FirstFault(items, blank, chunks, limit)
      && (r.outcome == Fine ==> r.units == Texts(items))
    decreases |chunks|
  {
    hide ArrayUnits, ArrayText, CutFate, AllGood, Texts, SameFates;
    if chunks == [] {
      assert left + "" == left;
      WholeArray(items, blank, limit);
    } else {
      var text, p, behind := ArrayText(items, blank), |left + chunks[0]|, Concat(chunks[1..]);
      Regroup(left, chunks[0], behind);
      assert text[..p] == left + chunks[0] && text[p..] == behind;
      var later, laterBlank := BufferCut(items, blank, p, limit);
      var r := ArrayUnits(text[..p], false, limit);
      if r.outcome == Fine {
        ArrayScanned(later, laterBlank, r.left, chunks[1..], limit);
        SameFaults(items, blank, later, laterBlank, chunks[1..], limit);
      }
    }
  }

  lemma WholeArray(items: seq<Item>, blank: string, limit: nat)
    requires AllGood(items, blank)
    ensures ArrayUnits(ArrayText(items, blank), true, limit) == Split(Fine, Texts(items), "")
  {
    ArrayIsSplit(items, blank, true, limit);
  }

  /**
   An array that is read in any chunks gives its elements in order if no buffer but the last ends with
   whitespace behind an object, an array or a string in it, nor with a cut-off element that is too long.
   Otherwise the scan fails, although the array is well formed.
   */
  lemma ArrayOverBuffers(items: seq<Item>, blank: string, chunks: seq<string>, limit: nat)
    requires AllGood(items, blank) && Concat(chunks) == ArrayText(items, blank)
    ensures
      var r := ArrayScan("", chunks, limit);
      && (r.outcome == Fine ==> r.units == Texts(items))
      && (r.outcome == Fine <==>
            forall k :: 0 < k <= |chunks| ==> CutFate(items, blank, |Concat(chunks[k..])|, limit) == Fine)
  {
    hide ArrayScan, ArrayText, CutFate, AllGood, FirstFault;
    assert "" + Concat(chunks) == Concat(chunks);
    ArrayScanned(items, blank, "", chunks, limit);
    FaultAtSomeCut(items, blank, chunks, limit);
  }

  lemma {:induction false} FaultAtSomeCut(items: seq<Item>, blank: string, chunks: seq<string>, limit: nat)
    ensures FirstFault(items, blank, chunks, limit) == Fine <==>
      forall k :: 0 < k <= |chunks| ==> CutFate(items, blank, |Concat(chunks[k..])|, limit) == Fine
    decreases |chunks|
  {
    hide CutFate, Concat;
    if chunks != [] {
      var later := chunks[1..];
      FaultAtSomeCut(items, blank, later, limit);
      assert forall k :: 0 < k <= |later| ==> later[k..] == chunks[k + 1..];
      if FirstFault(items, blank, chunks, limit) == Fine {
        forall k | 0 < k <= |chunks| ensures CutFate(items, blank, |Concat(chunks[k..])|, limit) == Fine {
          if k > 1 {
            assert later[k - 1..] == chunks[k..];
          }
        }
      }
    }
  }

  /** One object and a space: a cut behind the space fails, one in front of it does not. */
  lemma SpaceAtTheEnd(limit: nat)
    requires limit >= 2
    ensures ArrayScan("", ["{} ", "]"], limit).outcome == UnexpectedCharacter
    ensures ArrayScan("", ["{}", " ]"], limit).outcome == Fine && ArrayScan("", ["{}", " ]"], limit).units == ["{}"]
  {
    hide ArrayScan;
    var items := [Item("", Object("", []), " ")];
    assert Text(items[0].value) == "{}" && ItemText(items[0]) == "{} ";
    assert items[1..] == [] && ArrayText(items, "") == "{} ]";
    TwoChunks("{} ", "]");
    TwoChunks("{}", " ]");
    ArrayScanned(items, "", "", ["{} ", "]"], limit);
    ArrayScanned(items, "", "", ["{}", " ]"], limit);
    assert CutFate(items, "", 1, limit) == UnexpectedCharacter;
    assert CutFate(items, "", 2, limit) == Fine && CutFate(items, "", 0, limit) == Fine;
    assert Texts(items) == ["{}"];
  }

  lemma TwoChunks(a: string, b: string)
    ensures [a, b][1..] == [b] && [b][1..] == [] && Concat([b]) == b && Concat([a, b]) == a + b
    ensures "" + Concat([a, b]) == a + b
  {
    assert b + "" == b;
  }

  /** Where a cut makes the end of a buffer an unexpected character: behind whitespace, before the next stop. */
  lemma {:induction false} UnexpectedExactly(items: seq<Item>, blank: string, behind: nat, limit: nat)
    ensures CutFate(items, blank, behind, limit) == UnexpectedCharacter <==>
      exists i :: 0 <= i < |items| && !items[i].value.Literal? && CutBehindSpace(items, blank, i, behind)
    decreases |items|
  {
    hide Text, ArrayText;
    if items != [] {
      UnexpectedExactly(items[1..], blank, behind, limit);
      LaterSpaces(items, blank, behind);
    }
  }

  /** The cut leaves some of the whitespace behind the i-th element, or none, but not all of it. */
  predicate CutBehindSpace(items: seq<Item>, blank: string, i: nat, behind: nat)
    requires i < |items|
  {
    var more := 1 + |ArrayText(items[i + 1..], blank)|;
    more <= behind < more + |items[i].after|
  }

  lemma LaterSpaces(items: seq<Item>, blank: string, behind: nat)
    requires items != []
    ensures forall i :: 0 < i < |items| ==>
      (CutBehindSpace(items, blank, i, behind) <==> CutBehindSpace(items[1..], blank, i - 1, behind))
    ensures behind >= 1 + |ArrayText(items[1..], blank)| ==>
      forall i :: 0 < i < |items| ==> !CutBehindSpace(items, blank, i, behind)
  {
    hide ArrayText;
    forall i | 0 < i < |items|
      ensures CutBehindSpace(items, blank, i, behind) <==> CutBehindSpace(items[1..], blank, i - 1, behind)
      ensures CutBehindSpace(items, blank, i, behind) ==> behind < |ArrayText(items[1..], blank)|
    {
      assert items[1..][i - 1] == items[i] && items[1..][i..] == items[i + 1..];
      LongerBehind(items[1..], blank, i - 1);
    }
  }

  /** Where a cut leaves too much for the next buffer: more than the limit from the start of an element. */
  lemma {:induction false} TooLongExactly(items: seq<Item>, blank: string, behind: nat, limit: nat)
    ensures CutFate(items, blank, behind, limit) == ObjectTooLong <==>
      exists i :: 0 <= i < |items| && CutAfter(items, blank, i, behind, limit)
    decreases |items|
  {
    hide Text, ArrayText;
    if items != [] {
      TooLongExactly(items[1..], blank, behind, limit);
      LaterCuts(items, blank, behind, limit);
      FirstCut(items, blank, behind, limit);
      if j :| 0 <= j < |items[1..]| && CutAfter(items[1..], blank, j, behind, limit) {
        assert CutAfter(items, blank, j + 1, behind, limit);
      }
    }
  }

  /**
   The cut lies more than the limit behind the start of the i-th value, and in it; for a number or a
   literal, in the whitespace behind it too.
   */
  predicate CutAfter(items: seq<Item>, blank: string, i: nat, behind: nat, limit: nat)
    requires i < |items|
  {
    var more, value, after := 1 + |ArrayText(items[i + 1..], blank)|, |Text(items[i].value)|, |items[i].after|;
    && (if items[i].value.Literal? then more else more + after) <= behind
    && behind + limit < more + value + after
  }

  lemma FirstCut(items: seq<Item>, blank: string, behind: nat, limit: nat)
    requires items != []
    ensures CutAfter(items, blank, 0, behind, limit) <==>
      behind >= 1 + |ArrayText(items[1..], blank)| && CutFate(items, blank, behind, limit) == ObjectTooLong
  {
    hide Text, ArrayText;
  }

  lemma LaterCuts(items: seq<Item>, blank: string, behind: nat, limit: nat)
    requires items != []
    ensures forall i :: 0 < i < |items| ==>
      (CutAfter(items, blank, i, behind, limit) <==> CutAfter(items[1..], blank, i - 1, behind, limit))
    ensures behind >= 1 + |ArrayText(items[1..], blank)| ==>
      forall i :: 0 < i < |items| ==> !CutAfter(items, blank, i, behind, limit)
  {
    hide ArrayText, Text;
    forall i | 0 < i < |items|
      ensures CutAfter(items, blank, i, behind, limit) <==> CutAfter(items[1..], blank, i - 1, behind, limit)
      ensures CutAfter(items, blank, i, behind, limit) ==> behind < |ArrayText(items[1..], blank)|
    {
      assert items[1..][i - 1] == items[i] && items[1..][i..] == items[i + 1..];
      LongerBehind(items[1..], blank, i - 1);
    }
  }

  lemma {:induction false} LongerBehind(items: seq<Item>, blank: string, i: nat)
    requires i < |items|
    ensures 1 + |ArrayText(items[i + 1..], blank)| + |Text(items[i].value)|
      + |items[i].after| <= |ArrayText(items, blank)|
    decreases i
  {
    hide Text;
    if i > 0 {
      LongerBehind(items[1..], blank, i - 1);
      assert items[1..][i..] == items[i + 1..];
    }
  }

  /** Scanning an array buffer by buffer, with what was left over in front of the new bytes. */
  method ScanArray(chunks: seq<string>, limit: nat) returns (r: Split)
    ensures r == ArrayScan("", chunks, limit)
  {
    hide ArrayUnits;
    var units: seq<string>, left := [], "";
    assert chunks[0..] == chunks;
    Joined([], ArrayScan("", chunks, limit));
    for k := 0 to |chunks|
      invariant ArrayScan("", chunks, limit) == Join(units, ArrayScan(left, chunks[k..], limit))
    {
      assert chunks[k..][0] == chunks[k] && chunks[k..][1..] == chunks[k + 1..];
      var parsed := ParseArray(left + chunks[k], false, limit);
      if parsed.outcome != Fine {
        return Join(units, parsed);
      }
      JoinTwice(units, parsed.units, ArrayScan(parsed.left, chunks[k + 1..], limit));
      units := units + parsed.units;
      left := parsed.left;
    }
    r := ParseArray(left, true, limit);
    r := Join(units, r);
  }

  lemma JoinTwice(a: seq<string>, b: seq<string>, s: Split)
    ensures Join(a, Join(b, s)) == Join(a + b, s)
  {
    assert a + (b + s.units) == a + b + s.units;
  }

  // The characters of the grammar.

  lemma StringsWritten(c: char, units: seq<Unit>)
    ensures Text(Str(units)) == "\"" + UnitsText(units) + "\"" && UnitsText([]) == ""
    ensures UnitsText([Plain(c)] + units) == [c] + UnitsText(units)
    ensures UnitsText([Escaped(c)] + units) == ['\\', c] + UnitsText(units)
  {
    assert ([Plain(c)] + units)[1..] == units && ([Escaped(c)] + units)[1..] == units;
  }

  lemma ArraysWritten(blank: string, one: Item, two: Item)
    ensures Text(Array(blank, [])) == "[" + blank + "]"
    ensures Text(Array(blank, [one])) == "[" + (one.before + Text(one.value) + one.after) + "]"
    ensures Text(Array(blank, [one, two])) ==
      "[" + ((one.before + Text(one.value) + one.after) + ("," + (two.before + Text(two.value) + two.after))) + "]"
  {
    assert [one, two][1..] == [two];
    assert ItemsText([two]) == ItemText(two) && ItemsText([one]) == ItemText(one);
  }

  lemma ObjectsWritten(blank: string, one: Member, two: Member)
    ensures Text(Object(blank, [])) == "{" + blank + "}"
    ensures Text(Object(blank, [one])) == "{" + MemberText(one) + "}"
    ensures Text(Object(blank, [one, two])) == "{" + (MemberText(one) + ("," + MemberText(two))) + "}"
    ensures MemberText(one) == one.before + Text(Str(one.key)) + one.afterKey + ":"
      + (one.item.before + Text(one.item.value) + one.item.after)
  {
    hide MemberText;
    assert [one, two][1..] == [two];
    assert MembersText([two]) == MemberText(two) && MembersText([one]) == MemberText(one);
    MemberWritten(one);
  }

  lemma MemberWritten(m: Member)
    ensures MemberText(m) == m.before + Text(Str(m.key)) + m.afterKey + ":"
      + (m.item.before + Text(m.item.value) + m.item.after)
  {
  }
}
