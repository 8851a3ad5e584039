/**
 JSON paths such as $.a[0]..b[*]: the scanner, the validation of a path and the two evaluators that
 scan it again while they walk down a value. The scanner may look at the byte behind the text: a
 zero where the path has been copied into a terminated string, and any byte where it has not.
 */
module JsonPath {
  import opened Basics
  import opened Json

  /** A step of a path; Descend stands for a value and everything below it. */
  datatype PathStep = Key(name: string) | AnyKey | Index(index: nat, fromBack: bool) | AnyIndex | Descend

  // ---------------------------------------------------------------- the meaning of a path

  function Pick(index: nat, fromBack: bool, elements: seq<Json>): Option<Json> {
    if fromBack && index != 0 then
      if index <= |elements| then Some(elements[|elements| - index]) else None
    else
      At(elements, index)
  }

  function Denote(steps: seq<PathStep>, v: Json): seq<Json>
    decreases |steps|, 0
  {
    if steps == [] then [v]
    else
      var rest := steps[1..];
      match steps[0]
      case Key(name) => if v.Obj? then DenoteOption(rest, Lookup(v.fields, name)) else []
      case AnyKey => if v.Obj? then DenoteAll(rest, Children(v)) else []
      case Index(index, fromBack) => if v.Arr? then DenoteOption(rest, Pick(index, fromBack, v.elements)) else []
      case AnyIndex => if v.Arr? then DenoteAll(rest, Children(v)) else []
      case Descend =>
        LevelOrderVisitsAll(v);
        DenoteAll(rest, if rest == [] then LevelOrder([v])[1..] else LevelOrder([v]))
  }

  function DenoteOption(steps: seq<PathStep>, v: Option<Json>): seq<Json>
    decreases |steps|, 1
  {
    match v case None => [] case Some(value) => Denote(steps, value)
  }

  function DenoteAll(steps: seq<PathStep>, vs: seq<Json>): seq<Json>
    decreases |steps|, 1, |vs|
  {
    if vs == [] then [] else Denote(steps, vs[0]) + DenoteAll(steps, vs[1..])
  }

  predicate IsWildCardStep(step: PathStep) {
    step.AnyKey? || step.AnyIndex? || step.Descend?
  }

  predicate Regular(steps: seq<PathStep>) {
    forall i :: 0 <= i < |steps| ==> !IsWildCardStep(steps[i])
  }

  // ---------------------------------------------------------------- the grammar of the scanner

  datatype KeyRead = KeyRead(charsRead: nat, recursive: bool, key: string) {
    predicate IsValid() { charsRead != 0 }
    predicate IsWildCard() { key == "*" }
  }

  const NO_KEY: KeyRead := KeyRead(0, false, "")

  /** The byte behind a text that is terminated. */
  const ZERO: char := '\0'

  /** The character at a place; the scanner may look at the one behind the text, which can be any. */
  function CharAt(path: string, next: char, i: nat): char
    requires i <= |path|
  {
    if i < |path| then path[i] else next
  }

  /** A key behind an opening quote, without its escapes, and where its closing quote is. */
  function Unquote(path: string, i: nat): (r: Option<(nat, string)>)
    requires i <= |path|
    ensures r.Some? ==> i <= r.value.0 < |path|
    decreases |path| - i
  {
    if i == |path| then None
    else if path[i] == '"' then Some((i, ""))
    else if path[i] == '\\' then
      if i + 1 == |path| then None
      else
        var c := path[i + 1];
        match Unquote(path, i + 2)
        case None => None
        case Some((end, key)) => Some((end, Unescaped(c) + key))
    else
      match Unquote(path, i + 1)
      case None => None
      case Some((end, key)) => Some((end, [path[i]] + key))
  }

  /** The end of a plain key. */
  function KeyEnd(path: string, i: nat): (end: nat)
    requires i <= |path|
    ensures i <= end <= |path|
    decreases |path| - i
  {
    if i == |path| || path[i] == '.' || path[i] == '[' then i else KeyEnd(path, i + 1)
  }

  function StringAt(path: string, i: nat, escaped: bool): (r: KeyRead)
    requires i <= |path|
    ensures i + r.charsRead <= |path|
    ensures escaped && r.IsValid() ==> i + r.charsRead < |path| && path[i + r.charsRead] == '"'
  {
    if escaped then
      match Unquote(path, i)
      case None => NO_KEY
      case Some((end, key)) => UnquoteEnds(path, i); KeyRead(end - i, false, key)
    else
      KeyRead(KeyEnd(path, i) - i, false, path[i..KeyEnd(path, i)])
  }

  lemma {:induction false} UnquoteEnds(path: string, i: nat)
    requires i <= |path|
    ensures Unquote(path, i).Some? ==> path[Unquote(path, i).value.0] == '"'
    decreases |path| - i
  {
    if i < |path| && path[i] != '"' {
      if path[i] == '\\' {
        if i + 1 < |path| {
          UnquoteEnds(path, i + 2);
        }
      } else {
        UnquoteEnds(path, i + 1);
      }
    }
  }

  /** A key that is written out, with its quotes. */
  function NameAt(path: string, i: nat): (r: KeyRead)
    requires i <= |path|
    ensures !r.recursive && i + r.charsRead <= |path|
  {
    if i < |path| && path[i] == '"' then
      var r := StringAt(path, i + 1, true);
      if r.IsValid() then r.(charsRead := r.charsRead + 2) else r
    else
      StringAt(path, i, false)
  }

  /**
   Two dots end the text and a quote stands behind it: a key would be read from behind the quote, with
   an array for minus one characters. As an unsigned size that cannot be allocated, so reading fails.
   */
  predicate FailsAt(path: string, next: char, i: nat)
    requires i < |path|
  {
    path[i] == '.' && i + 1 == |path| && next == '"'
  }

  /**
   What stands behind a dot: a key, a wildcard, or a recursive one of these. A key that ends beyond
   the text says that the scanner has left it.
   */
  function KeyAt(path: string, next: char, i: nat): (r: KeyRead)
    requires i < |path|
    ensures i + r.charsRead <= |path| + 1
    ensures FailsAt(path, next, i) ==> r == NO_KEY
  {
    if path[i] == '*' then
      if CharAt(path, next, i + 1) == '*' then KeyRead(2, true, "*") else KeyRead(1, false, "*")
    else if path[i] == '.' then
      var c := CharAt(path, next, i + 1);
      if c == '*' then KeyRead(2, true, "*")
      else if c == '[' then KeyRead(1, true, "*")
      else if c == '"' && i + 1 == |path| then NO_KEY
      else
        var r := NameAt(path, i + 1);
        if r.IsValid() then KeyRead(r.charsRead + 1, true, r.key) else r
    else
      NameAt(path, i)
  }

  const INVALID_INDEX: nat := 0xFFFF_FFFF_FFFF_FFFF
  const SAFE_DIGITS: nat := 19
  const NO_ELEMENT: nat := 0xFFFF_FFFF

  predicate IsDigit(c: char) { '0' <= c <= '9' }

  function Digit(c: char): nat
    requires IsDigit(c)
  {
    c as nat - '0' as nat
  }

  /** At most n digits up to a closing bracket; the bracket is not looked for behind the n-th digit. */
  function Digits(path: string, i: nat, n: nat, value: nat): (r: Option<(nat, nat)>)
    requires i <= |path|
    ensures r.Some? ==> i <= r.value.0 <= i + n && r.value.0 <= |path|
    ensures r.Some? && r.value.0 < i + n ==> r.value.0 < |path| && path[r.value.0] == ']'
    decreases n
  {
    if n == 0 then Some((i, value))
    else if i == |path| then None
    else if path[i] == ']' then Some((i, value))
    else if IsDigit(path[i]) then Digits(path, i + 1, n - 1, value * 10 + Digit(path[i]))
    else None
  }

  function Pow10(n: nat): nat { if n == 0 then 1 else 10 * Pow10(n - 1) }

  lemma {:induction false} DigitsBound(path: string, i: nat, n: nat, value: nat)
    requires i <= |path|
    ensures Digits(path, i, n, value).Some? ==> Digits(path, i, n, value).value.1 < (value + 1) * Pow10(n)
    decreases n
  {
    if n > 0 {
      PowerStep(value, n);
      if i < |path| && path[i] != ']' && IsDigit(path[i]) {
        DigitsBound(path, i + 1, n - 1, value * 10 + Digit(path[i]));
        var d := Digit(path[i]);
        assert (value * 10 + d + 1) * Pow10(n - 1) <= (value * 10 + 10) * Pow10(n - 1);
      }
    }
  }

  lemma PowerStep(value: nat, n: nat)
    requires n > 0
    ensures (value * 10 + 10) * Pow10(n - 1) == (value + 1) * Pow10(n)
    ensures Pow10(n) > value * 0 && value < (value + 1) * Pow10(n)
  {
    PowerPositive(n);
  }

  lemma PowerPositive(n: nat)
    ensures Pow10(n) >= 1
  {
  }

  /** No index has the value that stands for a wildcard, nor does it overflow 64 bits. */
  lemma IndexIsNoWildCard(path: string, i: nat)
    requires i <= |path|
    ensures Digits(path, i, SAFE_DIGITS, 0).Some? ==> Digits(path, i, SAFE_DIGITS, 0).value.1 < INVALID_INDEX
  {
    DigitsBound(path, i, SAFE_DIGITS, 0);
    assert Pow10(19) == 10_000_000_000_000_000_000 by {
      assert Pow10(10) == 10_000_000_000;
    }
  }

  datatype IndexRead = BadIndex | IndexRead(step: PathStep, end: nat)

  /** The digits of an index and the character behind them, whatever it is. */
  function NumberAt(path: string, i: nat, fromBack: bool): (r: IndexRead)
    requires i <= |path|
    ensures r.IndexRead? ==> i < r.end <= |path| + 1 && r.step.Index?
  {
    match Digits(path, i, SAFE_DIGITS, 0)
    case None => BadIndex
    case Some((end, index)) => if end == i then BadIndex else IndexRead(Index(index, fromBack), end + 1)
  }

  /** What stands behind an opening bracket. */
  function IndexAt(path: string, i: nat): (r: IndexRead)
    requires i < |path|
    ensures r.IndexRead? ==> i < r.end <= |path| + 1 && (r.step.Index? || r.step.AnyIndex?)
  {
    if path[i] == '*' then
      if i + 1 == |path| || path[i + 1] != ']' then BadIndex else IndexRead(AnyIndex, i + 2)
    else if path[i] == '#' then
      if i + 1 == |path| then BadIndex
      else if path[i + 1] == ']' then IndexRead(Index(NO_ELEMENT, false), i + 2)
      else if path[i + 1] != '-' then BadIndex
      else NumberAt(path, i + 2, true)
    else if path[i] == '-' then
      NumberAt(path, i + 1, true)
    else
      NumberAt(path, i, false)
  }

  datatype Parsed = Steps(steps: seq<PathStep>) | Invalid | Overrun | Failure

  function Then(first: seq<PathStep>, rest: Parsed): Parsed {
    match rest case Steps(steps) => Steps(first + steps) case _ => rest
  }

  function KeySteps(k: KeyRead): seq<PathStep> {
    if k.recursive then (if k.IsWildCard() then [Descend] else [Descend, Key(k.key)])
    else if k.IsWildCard() then [AnyKey]
    else [Key(k.key)]
  }

  /** The steps of a path from a place behind its dollar sign. */
  function Parse(path: string, next: char, i: nat): Parsed
    requires i <= |path|
    decreases |path| - i
  {
    if i == |path| then Steps([])
    else if i + 1 == |path| then Invalid
    else if path[i] == '.' then
      var k := KeyAt(path, next, i + 1);
      if FailsAt(path, next, i + 1) then Failure
      else if !k.IsValid() then Invalid
      else if i + 1 + k.charsRead > |path| then Overrun
      else Then(KeySteps(k), Parse(path, next, i + 1 + k.charsRead))
    else if path[i] == '[' then
      match IndexAt(path, i + 1)
      case BadIndex => Invalid
      case IndexRead(step, end) => if end > |path| then Overrun else Then([step], Parse(path, next, end))
    else
      Invalid
  }

  // ---------------------------------------------------------------- the scanner

  function Prepend(key: string, r: Option<(nat, string)>): Option<(nat, string)> {
    match r case None => None case Some((end, rest)) => Some((end, key + rest))
  }

  lemma PrependTwice(a: string, b: string, r: Option<(nat, string)>)
    ensures Prepend(a + b, r) == Prepend(a, Prepend(b, r))
  {
    if r.Some? {
      assert a + b + r.value.1 == a + (b + r.value.1);
    }
  }

  lemma PrependNothing(r: Option<(nat, string)>)
    ensures Prepend("", r) == r
  {
    if r.Some? {
      assert "" + r.value.1 == r.value.1;
    }
  }

  function Unescaped(c: char): string {
    if c == '"' || c == '\\' then [c] else ['\\', c]
  }

  lemma UnquoteStep(path: string, i: nat)
    requires i < |path| && path[i] != '"'
    ensures path[i] != '\\' ==> Unquote(path, i) == Prepend([path[i]], Unquote(path, i + 1))
    ensures path[i] == '\\' && i + 1 < |path| ==>
      Unquote(path, i) == Prepend(Unescaped(path[i + 1]), Unquote(path, i + 2))
  {
  }

  /** A character behind a backslash. */
  lemma EscapeStep(path: string, start: nat, key: string, i: nat)
    requires start <= i && i + 1 < |path| && path[i] == '\\'
    requires Unquote(path, start) == Prepend(key, Unquote(path, i))
    ensures Unquote(path, start) == Prepend(key + Unescaped(path[i + 1]), Unquote(path, i + 2))
    ensures key + Unescaped(path[i + 1]) ==
      (if path[i + 1] != '"' && path[i + 1] != '\\' then key + ['\\'] else key) + [path[i + 1]]
  {
    UnquoteStep(path, i);
    PrependTwice(key, Unescaped(path[i + 1]), Unquote(path, i + 2));
  }

  lemma PlainStep(path: string, start: nat, key: string, i: nat)
    requires start <= i < |path| && path[i] != '"' && path[i] != '\\'
    requires Unquote(path, start) == Prepend(key, Unquote(path, i))
    ensures Unquote(path, start) == Prepend(key + [path[i]], Unquote(path, i + 1))
  {
    UnquoteStep(path, i);
    PrependTwice(key, [path[i]], Unquote(path, i + 1));
  }

  lemma LastStep(path: string, key: string, i: nat)
    requires i <= |path|
    ensures i == |path| ==> Prepend(key, Unquote(path, i)) == None
    ensures i < |path| && path[i] == '"' ==> Prepend(key, Unquote(path, i)) == Some((i, key))
    ensures i + 1 == |path| && path[i] == '\\' ==> Prepend(key, Unquote(path, i)) == None
  {
    assert key + "" == key;
  }

  method ReadString(path: string, start: nat, escaped: bool) returns (r: KeyRead)
    requires start <= |path|
    ensures r == StringAt(path, start, escaped)
  {
    hide Unescaped, Unquote, Prepend;
    var ptr := start;
    if escaped {
      var key := "";
      var backslash := false;
      PrependNothing(Unquote(path, start));
      while ptr != |path|
        invariant start <= ptr <= |path| && |key| <= ptr - start
        invariant backslash ==> ptr > start && path[ptr - 1] == '\\' && |key| < ptr - start
        invariant Unquote(path, start) == Prepend(key, Unquote(path, if backslash then ptr - 1 else ptr))
        decreases |path| - ptr
      {
        if backslash {
          EscapeStep(path, start, key, ptr - 1);
          if path[ptr] != '"' && path[ptr] != '\\' {
            key := key + ['\\'];
          }
          backslash := false;
        } else {
          if path[ptr] == '"' {
            break;
          } else if path[ptr] == '\\' {
            backslash := true;
            ptr := ptr + 1;
            continue;
          }
          PlainStep(path, start, key, ptr);
        }
        key := key + [path[ptr]];
        ptr := ptr + 1;
      }
      LastStep(path, key, if backslash then ptr - 1 else ptr);
      if ptr == |path| || backslash {
        return NO_KEY;
      }
      r := KeyRead(ptr - start, false, key);
    } else {
      while ptr != |path|
        invariant start <= ptr <= |path|
        invariant KeyEnd(path, start) == KeyEnd(path, ptr)
        decreases |path| - ptr
      {
        if path[ptr] == '.' || path[ptr] == '[' {
          break;
        }
        ptr := ptr + 1;
      }
      r := KeyRead(ptr - start, false, path[start..ptr]);
    }
  }

  method ReadInteger(path: string, start: nat) returns (len: nat, index: nat)
    requires start <= |path|
    ensures match Digits(path, start, SAFE_DIGITS, 0)
            case None => len == 0
            case Some((end, value)) => len == (if value >= INVALID_INDEX then 0 else end - start) && index == value
  {
    var ptr := start;
    index := 0;
    for i := 0 to SAFE_DIGITS
      invariant ptr == start + i <= |path|
      invariant Digits(path, start, SAFE_DIGITS, 0) == Digits(path, ptr, SAFE_DIGITS - i, index)
    {
      if ptr == |path| {
        return 0, index;
      }
      if path[ptr] == ']' {
        break;
      }
      if IsDigit(path[ptr]) {
        index := Digit(path[ptr]) + index * 10;
      } else {
        return 0, index;
      }
      ptr := ptr + 1;
    }
    len := if index >= INVALID_INDEX then 0 else ptr - start;
  }

  method ReadKey(path: string, next: char, start: nat) returns (ok: bool, r: KeyRead)
    requires start < |path|
    ensures ok <==> !FailsAt(path, next, start)
    ensures r == KeyAt(path, next, start)
  {
    hide StringAt;
    var ptr := start;
    ok := true;
    if path[ptr] == '*' {
      if CharAt(path, next, ptr + 1) == '*' {
        return true, KeyRead(2, true, "*");
      }
      return true, KeyRead(1, false, "*");
    }
    var recursive := false;
    if path[ptr] == '.' {
      var c := CharAt(path, next, ptr + 1);
      if c == '*' {
        return true, KeyRead(2, true, "*");
      }
      if c == '[' {
        return true, KeyRead(1, true, "*");
      }
      ptr := ptr + 1;
      recursive := true;
    }
    var escaped := false;
    if CharAt(path, next, ptr) == '"' {
      ptr := ptr + 1;
      escaped := true;
    }
    if ptr > |path| {
      return false, NO_KEY;
    }
    r := ReadString(path, ptr, escaped);
    if !r.IsValid() {
      return;
    }
    if escaped {
      r := r.(charsRead := r.charsRead + 2);
    }
    if recursive {
      r := r.(charsRead := r.charsRead + 1, recursive := true);
    }
  }

  function IndexStep(index: nat, fromBack: bool): PathStep {
    if index == INVALID_INDEX then AnyIndex else Index(index, fromBack)
  }

  /** The pointer behind the index may lie one beyond the end of the text. */
  method ReadArrayIndex(path: string, start: nat) returns (ok: bool, end: nat, index: nat, fromBack: bool)
    requires start < |path|
    ensures match IndexAt(path, start)
            case BadIndex => !ok
            case IndexRead(step, after) => ok && end == after && step == IndexStep(index, fromBack)
  {
    hide Digits;
    var ptr := start;
    fromBack, index := false, 0;
    if path[ptr] == '*' {
      ptr := ptr + 1;
      if ptr == |path| || path[ptr] != ']' {
        return false, ptr, index, fromBack;
      }
      index := INVALID_INDEX;
    } else {
      if path[ptr] == '#' {
        ptr := ptr + 1;
        if ptr == |path| {
          return false, ptr, index, fromBack;
        }
        if path[ptr] == ']' {
          return true, ptr + 1, NO_ELEMENT, fromBack;
        }
        if path[ptr] != '-' {
          return false, ptr, index, fromBack;
        }
        fromBack := true;
      }
      if path[ptr] == '-' {
        ptr := ptr + 1;
        fromBack := true;
      }
      IndexIsNoWildCard(path, ptr);
      var len;
      len, index := ReadInteger(path, ptr);
      if len == 0 {
        return false, ptr, index, fromBack;
      }
      ptr := ptr + len;
    }
    ok, end := true, ptr + 1;
  }

  datatype PathType = RegularPath | WildCardPath | PathError | BeyondText | AllocationError

  /** Validation: the kind of the path, or an error. */
  method ValidatePath(path: string, next: char) returns (r: PathType)
    requires |path| >= 1 && path[0] == '$'
    ensures match Parse(path, next, 1)
            case Steps(steps) => r == if Regular(steps) then RegularPath else WildCardPath
            case Invalid => r == PathError
            case Overrun => r == BeyondText
            case Failure => r == AllocationError
  {
    hide KeyAt, IndexAt, KeySteps, Regular, Parse;
    r := RegularPath;
    var ptr := 1;
    ghost var done: seq<PathStep> := [];
    NothingDone(Parse(path, next, 1));
    while ptr != |path|
      invariant 1 <= ptr <= |path|
      invariant Parse(path, next, 1) == Then(done, Parse(path, next, ptr))
      invariant r == if Regular(done) then RegularPath else WildCardPath
      decreases |path| - ptr
    {
      var c := path[ptr];
      ParseOther(path, next, ptr);
      ptr := ptr + 1;
      if ptr == |path| {
        return PathError;
      }
      match c {
        case '.' =>
          var ok, key := ReadKey(path, next, ptr);
          ParseKey(path, next, ptr - 1, done);
          if !ok {
            return AllocationError;
          }
          if !key.IsValid() {
            return PathError;
          } else if key.IsWildCard() || key.recursive {
            r := WildCardPath;
          }
          if ptr + key.charsRead > |path| {
            return BeyondText;
          }
          done := done + KeySteps(key);
          ptr := ptr + key.charsRead;
        case '[' =>
          var ok, end, index, fromBack := ReadArrayIndex(path, ptr);
          ParseIndex(path, next, ptr - 1, done);
          if !ok {
            return PathError;
          }
          if index == INVALID_INDEX {
            r := WildCardPath;
          }
          if end > |path| {
            return BeyondText;
          }
          done := done + [IndexStep(index, fromBack)];
          ptr := end;
        case _ =>
          return PathError;
      }
    }
    ParseEnd(path, next);
    assert done + [] == done;
  }

  lemma ParseEnd(path: string, next: char)
    ensures Parse(path, next, |path|) == Steps([])
  {
  }

  lemma NothingDone(r: Parsed)
    ensures Then([], r) == r && Regular([])
  {
    if r.Steps? {
      assert [] + r.steps == r.steps;
    }
  }

  lemma ParseOther(path: string, next: char, i: nat)
    requires i < |path|
    ensures i + 1 == |path| || (path[i] != '.' && path[i] != '[') ==> Parse(path, next, i) == Invalid
  {
  }

  lemma ParseKey(path: string, next: char, i: nat, done: seq<PathStep>)
    requires i + 1 < |path| && path[i] == '.'
    ensures
      var k := KeyAt(path, next, i + 1);
      && (Regular(done + KeySteps(k)) <==> Regular(done) && !k.IsWildCard() && !k.recursive)
      && if FailsAt(path, next, i + 1) then Parse(path, next, i) == Failure
         else if !k.IsValid() then Parse(path, next, i) == Invalid
         else if i + 1 + k.charsRead > |path| then Parse(path, next, i) == Overrun
         else Then(done, Parse(path, next, i)) == Then(done + KeySteps(k), Parse(path, next, i + 1 + k.charsRead))
  {
    hide KeyAt, KeySteps, Then, Regular;
    var k := KeyAt(path, next, i + 1);
    RegularAppend(done, KeySteps(k));
    RegularKey(k);
    if k.IsValid() && i + 1 + k.charsRead <= |path| {
      ThenTwice(done, KeySteps(k), Parse(path, next, i + 1 + k.charsRead));
    }
  }

  lemma ParseIndex(path: string, next: char, i: nat, done: seq<PathStep>)
    requires i + 1 < |path| && path[i] == '['
    ensures match IndexAt(path, i + 1)
            case BadIndex => Parse(path, next, i) == Invalid
            case IndexRead(step, end) =>
              && (Regular(done + [step]) <==> Regular(done) && !step.AnyIndex?)
              && if end > |path| then Parse(path, next, i) == Overrun
                 else Then(done, Parse(path, next, i)) == Then(done + [step], Parse(path, next, end))
  {
    hide IndexAt, Then;
    match IndexAt(path, i + 1)
    case BadIndex =>
    case IndexRead(step, end) =>
      RegularAppend(done, [step]);
      assert [step][0] == step;
      if end <= |path| {
        ThenTwice(done, [step], Parse(path, next, end));
      }
  }

  lemma ThenTwice(a: seq<PathStep>, b: seq<PathStep>, r: Parsed)
    ensures Then(a, Then(b, r)) == Then(a + b, r)
  {
    if r.Steps? {
      assert a + (b + r.steps) == a + b + r.steps;
    }
  }

  lemma RegularKey(k: KeyRead)
    ensures Regular(KeySteps(k)) <==> !(k.IsWildCard() || k.recursive)
  {
    assert KeySteps(k)[0] == KeySteps(k)[0];
  }

  lemma RegularAppend(a: seq<PathStep>, b: seq<PathStep>)
    ensures Regular(a + b) <==> Regular(a) && Regular(b)
  {
    if Regular(a + b) {
      forall i | 0 <= i < |a| ensures !IsWildCardStep(a[i]) { assert (a + b)[i] == a[i]; }
      forall i | 0 <= i < |b| ensures !IsWildCardStep(b[i]) { assert (a + b)[|a| + i] == b[i]; }
    }
  }

  // ---------------------------------------------------------------- the evaluators

  const WRAP: nat := 0x1_0000_0000_0000_0000

  /** The element at an index, counted from the back in 64-bit arithmetic. */
  function Element(elements: seq<Json>, index: nat, fromBack: bool): Option<Json> {
    At(elements, if fromBack && index != 0 then (|elements| - index) % WRAP else index)
  }

  /** An index that goes beyond the front wraps around to one beyond the end. */
  lemma ElementIsPick(elements: seq<Json>, index: nat, fromBack: bool)
    requires index < WRAP && |elements| < WRAP
    ensures Element(elements, index, fromBack) == Pick(index, fromBack, elements)
  {
    if fromBack && index > |elements| {
      assert (|elements| - index) % WRAP == |elements| - index + WRAP;
    }
  }

  /** Arrays are shorter than 2^64, as memory is. */
  predicate Fits(v: Json) {
    match v
    case Scalar(_) => true
    case Arr(elements) => |elements| < WRAP && forall i :: 0 <= i < |elements| ==> Fits(elements[i])
    case Obj(fields) => forall i :: 0 <= i < |fields| ==> Fits(fields[i].value)
  }

  lemma {:induction false} LookupFits(fields: seq<Field>, key: string)
    requires forall i :: 0 <= i < |fields| ==> Fits(fields[i].value)
    ensures Lookup(fields, key).Some? ==> Fits(Lookup(fields, key).value)
  {
    hide Fits;
    if fields != [] && fields[0].key != key {
      LookupFits(fields[1..], key);
    }
  }

  lemma ParseStep(path: string, next: char, i: nat) returns (rest: seq<PathStep>)
    requires i < |path| && Parse(path, next, i).Steps?
    ensures i + 1 < |path|
    ensures path[i] == '.' || path[i] == '['
    ensures path[i] == '.' ==>
      var k := KeyAt(path, next, i + 1);
      && k.IsValid() && i + 1 + k.charsRead <= |path| && Parse(path, next, i + 1 + k.charsRead) == Steps(rest)
      && Parse(path, next, i).steps == KeySteps(k) + rest
    ensures path[i] == '[' ==>
      && IndexAt(path, i + 1).IndexRead? && IndexAt(path, i + 1).end <= |path|
      && Parse(path, next, IndexAt(path, i + 1).end) == Steps(rest)
      && Parse(path, next, i).steps == [IndexAt(path, i + 1).step] + rest
  {
    hide KeyAt, IndexAt, KeySteps;
    rest := if path[i] == '.' then Parse(path, next, i + 1 + KeyAt(path, next, i + 1).charsRead).steps
            else Parse(path, next, IndexAt(path, i + 1).end).steps;
  }

  function AsSeq(v: Option<Json>): seq<Json> {
    match v case None => [] case Some(value) => [value]
  }

  lemma IndexFits(path: string, i: nat)
    requires i < |path|
    ensures IndexAt(path, i).IndexRead? && IndexAt(path, i).step.Index? ==> IndexAt(path, i).step.index < INVALID_INDEX
  {
    hide Digits;
    IndexIsNoWildCard(path, i);
    if i + 1 <= |path| {
      IndexIsNoWildCard(path, i + 1);
    }
    if i + 2 <= |path| {
      IndexIsNoWildCard(path, i + 2);
    }
  }

  lemma Cons<E>(x: E, rest: seq<E>)
    ensures ([x] + rest)[0] == x && ([x] + rest)[1..] == rest && [x] + rest != []
  {
  }

  /** The answer to a path without wildcards: the only match, or nothing. */
  method GetPath(root: Json, path: string, next: char, ghost steps: seq<PathStep>) returns (val: Option<Json>)
    requires |path| >= 1 && path[0] == '$' && Parse(path, next, 1) == Steps(steps) && Regular(steps)
    requires Fits(root)
    ensures AsSeq(val) == Denote(steps, root)
  {
    hide Parse, KeyAt, IndexAt, Fits, Pick, Denote;
    var ptr := 1;
    val := Some(root);
    ghost var rest := steps;
    while val.Some? && ptr != |path|
      invariant 1 <= ptr <= |path| && Parse(path, next, ptr) == Steps(rest) && Regular(rest)
      invariant val.Some? ==> Fits(val.value)
      invariant DenoteOption(rest, val) == Denote(steps, root)
      decreases |path| - ptr
    {
      var c := path[ptr];
      ghost var later := ParseStep(path, next, ptr);
      ptr := ptr + 1;
      if c == '.' {
        if !val.value.Obj? {
          DenoteKey(rest, later, KeyAt(path, next, ptr), val.value);
          return None;
        }
        var _, key := ReadKey(path, next, ptr);
        DenoteKey(rest, later, key, val.value);
        ptr := ptr + key.charsRead;
        FieldFits(val.value, key.key);
        val := Lookup(val.value.fields, key.key);
      } else if c == '[' {
        Cons(IndexAt(path, ptr).step, later);
        if !val.value.Arr? {
          DenoteIndex(rest, val.value);
          return None;
        }
        var _, end, index, fromBack := ReadArrayIndex(path, ptr);
        IndexFits(path, ptr);
        DenoteIndex(rest, val.value);
        ptr := end;
        ElementFits(val.value, index, fromBack);
        val := Element(val.value.elements, index, fromBack);
      } else {
        assert false;
      }
      rest := later;
    }
    DenoteNothing(path, next, ptr, rest, val);
  }

  lemma FieldFits(v: Json, key: string)
    requires v.Obj? && Fits(v)
    ensures Lookup(v.fields, key).Some? ==> Fits(Lookup(v.fields, key).value)
  {
    LookupFits(v.fields, key);
  }

  lemma ElementFits(v: Json, index: nat, fromBack: bool)
    requires v.Arr? && Fits(v) && index < WRAP
    ensures Element(v.elements, index, fromBack) == Pick(index, fromBack, v.elements)
    ensures Element(v.elements, index, fromBack).Some? ==> Fits(Element(v.elements, index, fromBack).value)
  {
    ElementIsPick(v.elements, index, fromBack);
  }

  lemma DenoteKey(steps: seq<PathStep>, rest: seq<PathStep>, k: KeyRead, v: Json)
    requires steps == KeySteps(k) + rest && Regular(steps)
    ensures !k.IsWildCard() && !k.recursive && Regular(rest)
    ensures Denote(steps, v) == if v.Obj? then DenoteOption(rest, Lookup(v.fields, k.key)) else []
  {
    hide DenoteAll;
    RegularAppend(KeySteps(k), rest);
    RegularKey(k);
    Cons(Key(k.key), rest);
  }

  lemma DenoteIndex(steps: seq<PathStep>, v: Json)
    requires steps != [] && Regular(steps) && (steps[0].Index? || steps[0].AnyIndex?)
    ensures steps[0].Index? && Regular(steps[1..])
    ensures Denote(steps, v) ==
      if v.Arr? then DenoteOption(steps[1..], Pick(steps[0].index, steps[0].fromBack, v.elements)) else []
  {
    hide DenoteAll, Pick;
    assert !IsWildCardStep(steps[0]);
    assert steps == [steps[0]] + steps[1..];
    RegularAppend([steps[0]], steps[1..]);
  }

  lemma DenoteNothing(path: string, next: char, ptr: nat, rest: seq<PathStep>, val: Option<Json>)
    requires ptr <= |path| && Parse(path, next, ptr) == Steps(rest)
    requires val.None? || ptr == |path|
    ensures DenoteOption(rest, val) == AsSeq(val)
  {
  }

  lemma {:induction false} DenoteAllPush(steps: seq<PathStep>, vs: seq<Json>, v: Json)
    ensures DenoteAll(steps, vs + [v]) == DenoteAll(steps, vs) + Denote(steps, v)
    decreases |vs|
  {
    hide Denote;
    if vs == [] {
      assert vs + [v] == [v] && [v][1..] == [];
    } else {
      assert (vs + [v])[1..] == vs[1..] + [v] && (vs + [v])[0] == vs[0];
      DenoteAllPush(steps, vs[1..], v);
      assert Denote(steps, vs[0]) + (DenoteAll(steps, vs[1..]) + Denote(steps, v)) ==
        DenoteAll(steps, vs) + Denote(steps, v);
    }
  }

  /** A recursive key is scanned twice: behind the dot that makes it recursive it is a plain key. */
  lemma RecursiveKey(path: string, next: char, p: nat)
    requires p < |path| && KeyAt(path, next, p).IsValid() && KeyAt(path, next, p).recursive
    requires !KeyAt(path, next, p).IsWildCard()
    requires p + KeyAt(path, next, p).charsRead <= |path|
    ensures
      var k := KeyAt(path, next, p);
      Parse(path, next, p) == Then([Key(k.key)], Parse(path, next, p + k.charsRead))
  {
    hide StringAt, Then;
    PlainKey(path, next, p + 1);
  }

  lemma PlainKey(path: string, next: char, i: nat)
    requires i <= |path| && NameAt(path, i).IsValid() && CharAt(path, next, i) != '*'
    ensures i < |path| && path[i] != '.' && KeyAt(path, next, i) == NameAt(path, i)
  {
  }

  /** The values that a recursive wildcard hands on from the first i values of its worklist. */
  function HandedOn(rest: seq<PathStep>, visited: seq<Json>): seq<Json> {
    if rest == [] && visited != [] then visited[1..] else visited
  }

  lemma NoneHandedOn(rest: seq<PathStep>, vals: seq<Json>)
    ensures vals == vals + DenoteAll(rest, HandedOn(rest, []))
  {
  }

  lemma HandOn(rest: seq<PathStep>, visited: seq<Json>, v: Json, vals: seq<Json>, before: seq<Json>, after: seq<Json>)
    requires before == vals + DenoteAll(rest, HandedOn(rest, visited))
    requires after == before + if rest == [] && visited == [] then [] else Denote(rest, v)
    ensures after == vals + DenoteAll(rest, HandedOn(rest, visited + [v]))
  {
    hide Denote, DenoteAll;
    if rest == [] && visited == [] {
      assert HandedOn(rest, visited + [v]) == HandedOn(rest, visited);
    } else {
      assert HandedOn(rest, visited + [v]) == HandedOn(rest, visited) + [v];
      DenoteAllPush(rest, HandedOn(rest, visited), v);
    }
  }

  /** Every value of the worklist is evaluated, and its children join the list. */
  method DescendFrom(root: Json, path: string, next: char, ptr: nat, vals: seq<Json>, ghost rest: seq<PathStep>)
    returns (r: seq<Json>)
    requires 1 <= ptr <= |path| && Parse(path, next, ptr) == Steps(rest) && Fits(root)
    ensures r == vals + Denote([Descend] + rest, root)
    decreases |path| - ptr, 1
  {
    hide Parse, Fits, Denote, DenoteAll, HandedOn, SizeAll, Queue, LevelOrder, Children;
    var recVals := [root];
    r := vals;
    QueueIsLevelOrder([root]);
    NoneHandedOn(rest, vals);
    QueueEmpty();
    var i := 0;
    while i < |recVals|
      invariant i <= |recVals|
      invariant recVals[..i] + Queue(recVals[i..]) == LevelOrder([root])
      invariant forall j :: 0 <= j < |recVals| ==> Fits(recVals[j])
      invariant r == vals + DenoteAll(rest, HandedOn(rest, recVals[..i]))
      decreases SizeAll(recVals[i..])
    {
      var recVal := recVals[i];
      ghost var queue, visited, before := recVals[i..], recVals[..i], r;
      QueueShrinks(queue);
      ChildrenFit(recVal);
      recVals := recVals + Children(recVal);
      WorklistStep(visited, queue, Children(recVal), recVals);
      EndOfPath(path, next, ptr, rest);
      if i > 0 || ptr != |path| {
        r := GetWildcardPathInternal(recVal, path, next, ptr, r, rest);
      }
      HandOn(rest, visited, recVal, vals, before, r);
      i := i + 1;
    }
    assert recVals[..i] == recVals && recVals[i..] == [] && recVals + [] == recVals;
    WorklistDone(recVals, root, rest);
  }

  lemma ChildrenFit(v: Json)
    requires Fits(v)
    ensures forall i :: 0 <= i < |Children(v)| ==> Fits(Children(v)[i])
  {
  }

  lemma WorklistStep(visited: seq<Json>, queue: seq<Json>, children: seq<Json>, recVals: seq<Json>)
    requires queue != [] && recVals == visited + queue + children && Children(queue[0]) == children
    ensures recVals[..|visited| + 1] == visited + [queue[0]]
    ensures recVals[|visited| + 1..] == queue[1..] + children
    ensures recVals[..|visited| + 1] + Queue(recVals[|visited| + 1..]) == visited + Queue(queue)
  {
    hide Children, SizeAll;
    Regroup(visited, [queue[0]], Queue(queue[1..] + children));
  }

  lemma EndOfPath(path: string, next: char, ptr: nat, rest: seq<PathStep>)
    requires ptr <= |path| && Parse(path, next, ptr) == Steps(rest)
    ensures ptr == |path| <==> rest == []
  {
    hide KeyAt, IndexAt;
  }

  lemma WorklistDone(visited: seq<Json>, root: Json, rest: seq<PathStep>)
    requires visited == LevelOrder([root])
    ensures DenoteAll(rest, HandedOn(rest, visited)) == Denote([Descend] + rest, root)
  {
    hide LevelOrder, DenoteAll, Descendants;
    LevelOrderVisitsAll(root);
    Cons(Descend, rest);
  }

  /** Evaluates the rest of a path on some values, one after the other. */
  method EvaluateAll(roots: seq<Json>, path: string, next: char, ptr: nat, vals: seq<Json>, ghost rest: seq<PathStep>)
    returns (r: seq<Json>)
    requires 1 <= ptr <= |path| && Parse(path, next, ptr) == Steps(rest)
    requires forall i :: 0 <= i < |roots| ==> Fits(roots[i])
    ensures r == vals + DenoteAll(rest, roots)
    decreases |path| - ptr, 1
  {
    hide Parse, Fits, Denote;
    r := vals;
    for i := 0 to |roots|
      invariant r == vals + DenoteAll(rest, roots[..i])
    {
      assert roots[..i + 1] == roots[..i] + [roots[i]];
      DenoteAllPush(rest, roots[..i], roots[i]);
      r := GetWildcardPathInternal(roots[i], path, next, ptr, r, rest);
    }
    assert roots[..|roots|] == roots;
  }

  /** Appends the matches of the rest of a path below a value. */
  method GetWildcardPathInternal(root: Json, path: string, next: char, start: nat, vals: seq<Json>,
                                 ghost steps: seq<PathStep>) returns (r: seq<Json>)
    requires 1 <= start <= |path| && Parse(path, next, start) == Steps(steps) && Fits(root)
    ensures r == vals + Denote(steps, root)
    decreases |path| - start, 0
  {
    hide Parse, KeyAt, IndexAt, Fits, Pick, Denote, DenoteAll, Children;
    var ptr := start;
    var val := Some(root);
    ghost var rest := steps;
    while val.Some? && ptr != |path|
      invariant start <= ptr <= |path| && Parse(path, next, ptr) == Steps(rest)
      invariant val.Some? ==> Fits(val.value)
      invariant DenoteOption(rest, val) == Denote(steps, root)
      decreases |path| - ptr
    {
      var c := path[ptr];
      ghost var later := ParseStep(path, next, ptr);
      ptr := ptr + 1;
      if c == '.' {
        var _, key := ReadKey(path, next, ptr);
        if key.recursive {
          ghost var behind := BehindDescend(path, next, ptr, key, later);
          if key.IsWildCard() {
            ptr := ptr + key.charsRead;
          }
          r := DescendFrom(val.value, path, next, ptr, vals, behind);
          return;
        }
        ptr := ptr + key.charsRead;
        DenotePlain(rest, later, key, val.value);
        if !val.value.Obj? {
          return vals;
        }
        if key.IsWildCard() {
          ChildrenFit(val.value);
          r := EvaluateAll(Children(val.value), path, next, ptr, vals, later);
          return;
        }
        FieldFits(val.value, key.key);
        val := Lookup(val.value.fields, key.key);
      } else if c == '[' {
        Cons(IndexAt(path, ptr).step, later);
        DenoteElement(rest, val.value);
        if !val.value.Arr? {
          return vals;
        }
        var _, end, index, fromBack := ReadArrayIndex(path, ptr);
        IndexFits(path, ptr);
        ptr := end;
        if index == INVALID_INDEX {
          ChildrenFit(val.value);
          r := EvaluateAll(Children(val.value), path, next, ptr, vals, later);
          return;
        }
        ElementFits(val.value, index, fromBack);
        val := Element(val.value.elements, index, fromBack);
      } else {
        assert false;
      }
      rest := later;
    }
    DenoteNothing(path, next, ptr, rest, val);
    r := vals + AsSeq(val);
  }

  /** What follows a recursive wildcard: all the rest, or first the key that made it recursive. */
  lemma BehindDescend(path: string, next: char, ptr: nat, k: KeyRead, later: seq<PathStep>)
    returns (behind: seq<PathStep>)
    requires ptr < |path| && k == KeyAt(path, next, ptr) && k.IsValid() && k.recursive
    requires ptr + k.charsRead <= |path| && Parse(path, next, ptr + k.charsRead) == Steps(later)
    ensures KeySteps(k) + later == [Descend] + behind
    ensures Parse(path, next, if k.IsWildCard() then ptr + k.charsRead else ptr) == Steps(behind)
  {
    hide Parse, KeyAt;
    behind := if k.IsWildCard() then later else [Key(k.key)] + later;
    if !k.IsWildCard() {
      RecursiveKey(path, next, ptr);
    }
  }

  lemma DenotePlain(steps: seq<PathStep>, rest: seq<PathStep>, k: KeyRead, v: Json)
    requires steps == KeySteps(k) + rest && !k.recursive
    ensures Denote(steps, v) ==
      if !v.Obj? then []
      else if k.IsWildCard() then DenoteAll(rest, Children(v))
      else DenoteOption(rest, Lookup(v.fields, k.key))
  {
    hide DenoteAll;
    Cons(KeySteps(k)[0], rest);
  }

  lemma DenoteElement(steps: seq<PathStep>, v: Json)
    requires steps != [] && (steps[0].Index? || steps[0].AnyIndex?)
    ensures Denote(steps, v) ==
      if !v.Arr? then []
      else if steps[0].AnyIndex? then DenoteAll(steps[1..], Children(v))
      else DenoteOption(steps[1..], Pick(steps[0].index, steps[0].fromBack, v.elements))
  {
    hide DenoteAll, Pick;
  }

  /** The matches of a path that has been validated. */
  method GetWildcardPath(root: Json, path: string, next: char, vals: seq<Json>, ghost steps: seq<PathStep>)
    returns (r: seq<Json>)
    requires |path| >= 1 && path[0] == '$' && Parse(path, next, 1) == Steps(steps) && Fits(root)
    ensures r == vals + Denote(steps, root)
  {
    r := GetWildcardPathInternal(root, path, next, 1, vals, steps);
  }

  /** On a path without wildcards both evaluators agree. */
  method EvaluateBoth(root: Json, path: string, next: char) returns (kind: PathType, one: Option<Json>, all: seq<Json>)
    requires |path| >= 1 && path[0] == '$' && Fits(root)
    ensures kind == RegularPath ==> all == AsSeq(one)
    ensures kind == RegularPath || kind == WildCardPath ==>
      Parse(path, next, 1).Steps? && all == Denote(Parse(path, next, 1).steps, root)
    ensures forall matches :: Gives(path, next, root, matches) ==>
      (kind == RegularPath || kind == WildCardPath) && all == matches
  {
    hide Parse, Fits, Denote;
    kind := ValidatePath(path, next);
    one, all := None, [];
    if kind == RegularPath || kind == WildCardPath {
      ghost var steps := Parse(path, next, 1).steps;
      all := GetWildcardPath(root, path, next, [], steps);
      if kind == RegularPath {
        one := GetPath(root, path, next, steps);
      }
    }
  }

  // ---------------------------------------------------------------- what the meaning is worth

  lemma {:induction false} DenoteAllNothing(vs: seq<Json>)
    ensures DenoteAll([], vs) == vs
  {
    if vs != [] {
      DenoteAllNothing(vs[1..]);
    }
  }

  /** A path that ends in a recursive wildcard gives each proper descendant once, and nothing else. */
  lemma TrailingDescend(v: Json)
    ensures multiset(Denote([Descend], v)) + multiset{v} == multiset(Descendants(v))
  {
    hide LevelOrder, Descendants;
    LevelOrderVisitsAll(v);
    Cons(Descend, []);
    assert [Descend] + [] == [Descend];
    DenoteAllNothing(LevelOrder([v])[1..]);
    assert LevelOrder([v]) == [v] + LevelOrder([v])[1..];
  }

  /** A path without wildcards has at most one match. */
  lemma {:induction false} RegularIsUnique(steps: seq<PathStep>, v: Json)
    requires Regular(steps)
    ensures |Denote(steps, v)| <= 1
    decreases |steps|
  {
    hide Pick, Lookup, LevelOrder;
    if steps != [] {
      assert !IsWildCardStep(steps[0]);
      assert [steps[0]] + steps[1..] == steps;
      RegularAppend([steps[0]], steps[1..]);
      var next := if steps[0].Key? then (if v.Obj? then Lookup(v.fields, steps[0].name) else None)
                  else if v.Arr? then Pick(steps[0].index, steps[0].fromBack, v.elements) else None;
      if next.Some? {
        RegularIsUnique(steps[1..], next.value);
      }
    }
  }

  // ---------------------------------------------------------------- writing a path and reading it again

  function Escape(name: string): string {
    if name == "" then "" else
      (if name[0] == '"' || name[0] == '\\' then ['\\', name[0]] else [name[0]]) + Escape(name[1..])
  }

  function Decimal(n: nat): (digits: string)
    ensures digits != "" && forall i :: 0 <= i < |digits| ==> IsDigit(digits[i])
  {
    var last := ('0' as nat + n % 10) as char;
    if n < 10 then [last] else Decimal(n / 10) + [last]
  }

  /** Names that can be written: the empty name and a lone star cannot. Numbers have at most 18 digits. */
  predicate Writable(step: PathStep) {
    match step
    case Key(name) => name != "" && name != "*"
    case Index(index, _) => |Decimal(index)| < SAFE_DIGITS
    case _ => true
  }

  function RenderStep(step: PathStep): (text: string)
    ensures |text| >= 2 && (text[0] == '.' || text[0] == '[')
  {
    match step
    case Key(name) => ".\"" + Escape(name) + "\""
    case AnyKey => ".*"
    case Index(index, fromBack) => (if fromBack then "[#-" else "[") + Decimal(index) + "]"
    case AnyIndex => "[*]"
    case Descend => "..*"
  }

  function Render(steps: seq<PathStep>): string {
    if steps == [] then "" else RenderStep(steps[0]) + Render(steps[1..])
  }

  /** The text goes on with some piece. */
  predicate Has(path: string, i: nat, piece: string) {
    i + |piece| <= |path| && path[i..i + |piece|] == piece
  }

  lemma HasAt(path: string, i: nat, piece: string, k: nat)
    requires Has(path, i, piece) && k < |piece|
    ensures i + k < |path| && path[i + k] == piece[k]
  {
    assert path[i..i + |piece|][k] == piece[k];
  }

  lemma HasParts(path: string, i: nat, a: string, b: string)
    requires Has(path, i, a + b)
    ensures Has(path, i, a) && Has(path, i + |a|, b)
  {
    var whole := path[i..i + |a + b|];
    assert path[i..i + |a|] == whole[..|a|] == a;
    assert path[i + |a|..i + |a| + |b|] == whole[|a|..] == b;
  }

  lemma {:induction false} UnquoteEscaped(path: string, i: nat, name: string)
    requires Has(path, i, Escape(name) + "\"")
    ensures Unquote(path, i) == Some((i + |Escape(name)|, name))
    decreases |name|
  {
    HasAt(path, i, Escape(name) + "\"", 0);
    if name != "" {
      var first := if name[0] == '"' || name[0] == '\\' then ['\\', name[0]] else [name[0]];
      assert Escape(name) + "\"" == first + (Escape(name[1..]) + "\"");
      HasParts(path, i, first, Escape(name[1..]) + "\"");
      HasAt(path, i, first, |first| - 1);
      UnquoteEscaped(path, i + |first|, name[1..]);
      UnquoteStep(path, i);
      assert [name[0]] + name[1..] == name;
    } else {
      assert Escape(name) + "\"" == "\"";
    }
  }

  /** The value of a string of digits that stands behind others. */
  function ValueOf(value: nat, digits: string): nat
    requires forall i :: 0 <= i < |digits| ==> IsDigit(digits[i])
    decreases |digits|
  {
    if digits == "" then value else ValueOf(value * 10 + Digit(digits[0]), digits[1..])
  }

  lemma {:induction false} ValueAppend(value: nat, a: string, d: char)
    requires IsDigit(d) && forall i :: 0 <= i < |a| ==> IsDigit(a[i])
    ensures ValueOf(value, a + [d]) == ValueOf(value, a) * 10 + Digit(d)
    decreases |a|
  {
    if a == "" {
      assert a + [d] == [d] && [d][1..] == "";
    } else {
      assert (a + [d])[1..] == a[1..] + [d] && (a + [d])[0] == a[0];
      ValueAppend(value * 10 + Digit(a[0]), a[1..], d);
    }
  }

  lemma {:induction false} DecimalValue(n: nat)
    ensures ValueOf(0, Decimal(n)) == n
  {
    var last := ('0' as nat + n % 10) as char;
    if n < 10 {
      assert [last][1..] == "";
    } else {
      DecimalValue(n / 10);
      ValueAppend(0, Decimal(n / 10), last);
    }
  }

  lemma {:induction false} DigitsRead(path: string, i: nat, n: nat, value: nat, digits: string)
    requires forall k :: 0 <= k < |digits| ==> IsDigit(digits[k])
    requires |digits| < n && Has(path, i, digits + "]")
    ensures Digits(path, i, n, value) == Some((i + |digits|, ValueOf(value, digits)))
    decreases |digits|
  {
    HasAt(path, i, digits + "]", 0);
    if digits != "" {
      assert digits + "]" == [digits[0]] + (digits[1..] + "]");
      HasParts(path, i, [digits[0]], digits[1..] + "]");
      DigitsRead(path, i + 1, n - 1, value * 10 + Digit(digits[0]), digits[1..]);
    }
  }

  lemma NumberRead(path: string, i: nat, index: nat, fromBack: bool)
    requires |Decimal(index)| < SAFE_DIGITS && Has(path, i, Decimal(index) + "]")
    ensures NumberAt(path, i, fromBack) == IndexRead(Index(index, fromBack), i + |Decimal(index)| + 1)
  {
    hide Digits, ValueOf;
    DigitsRead(path, i, SAFE_DIGITS, 0, Decimal(index));
    DecimalValue(index);
  }

  lemma ForwardIndexWritten(path: string, i: nat, index: nat)
    requires |Decimal(index)| < SAFE_DIGITS && Has(path, i, "[" + (Decimal(index) + "]"))
    ensures i + 1 < |path| && path[i] == '['
    ensures IndexAt(path, i + 1) == IndexRead(Index(index, false), i + |Decimal(index)| + 2)
  {
    hide NumberAt, Decimal, Has;
    var digits := Decimal(index);
    HasParts(path, i, "[", digits + "]");
    HasAt(path, i, "[", 0);
    HasAt(path, i + 1, digits + "]", 0);
    NumberRead(path, i + 1, index, false);
  }

  lemma BackwardIndexWritten(path: string, i: nat, index: nat)
    requires |Decimal(index)| < SAFE_DIGITS && Has(path, i, "[#-" + (Decimal(index) + "]"))
    ensures i + 1 < |path| && path[i] == '['
    ensures IndexAt(path, i + 1) == IndexRead(Index(index, true), i + |Decimal(index)| + 4)
  {
    hide NumberAt, Decimal, Has;
    HasParts(path, i, "[#-", Decimal(index) + "]");
    HasAt(path, i, "[#-", 0);
    HasAt(path, i, "[#-", 1);
    HasAt(path, i, "[#-", 2);
    NumberRead(path, i + 3, index, true);
  }

  lemma IndexWritten(path: string, i: nat, step: PathStep)
    requires step.Index? && Writable(step) && Has(path, i, RenderStep(step))
    ensures i < |path| && path[i] == '[' && i + 1 < |path|
    ensures IndexAt(path, i + 1) == IndexRead(step, i + |RenderStep(step)|)
  {
    hide IndexAt, Decimal, Has;
    IndexText(step);
    if step.fromBack {
      BackwardIndexWritten(path, i, step.index);
    } else {
      ForwardIndexWritten(path, i, step.index);
    }
  }

  lemma IndexText(step: PathStep)
    requires step.Index?
    ensures RenderStep(step) == (if step.fromBack then "[#-" else "[") + (Decimal(step.index) + "]")
    ensures |RenderStep(step)| == |Decimal(step.index)| + if step.fromBack then 4 else 2
  {
    hide Decimal;
  }

  function QuotedKey(name: string): string {
    ".\"" + (Escape(name) + "\"")
  }

  /** How a quoted key is read, at any place of any path. */
  lemma QuotedKeyRead(path: string, next: char, i: nat, name: string)
    requires Has(path, i, QuotedKey(name))
    ensures i + 1 < |path| && path[i] == '.'
    ensures KeyAt(path, next, i + 1) == if name == "" then NO_KEY else KeyRead(|QuotedKey(name)| - 1, false, name)
  {
    hide Unquote, Escape, Has;
    HasParts(path, i, ".\"", Escape(name) + "\"");
    HasAt(path, i, ".\"", 0);
    HasAt(path, i, ".\"", 1);
    UnquoteEscaped(path, i + 2, name);
    EscapeLength(name);
  }

  lemma EscapeLength(name: string)
    ensures name == "" <==> |Escape(name)| == 0
  {
  }

  /**
   A quoted key is read as the key it names exactly if it is neither empty nor a lone star: the star
   becomes a wildcard, and the empty key is refused with the whole path.
   */
  lemma QuotedKeyExactly(path: string, next: char, i: nat, name: string)
    requires Has(path, i, QuotedKey(name))
    ensures
      var k := KeyAt(path, next, i + 1);
      && (k.IsValid() && KeySteps(k) == [Key(name)] <==> name != "" && name != "*")
      && (k.IsValid() && KeySteps(k) == [AnyKey] <==> name == "*")
      && (!k.IsValid() <==> name == "")
    ensures Parse(path, next, i) ==
      if name == "" then Invalid
      else Then([if name == "*" then AnyKey else Key(name)], Parse(path, next, i + |QuotedKey(name)|))
  {
    hide KeyAt, Escape;
    QuotedKeyRead(path, next, i, name);
  }

  /** Paths that end in a wildcard, which the scanner takes to be recursive if a star follows. */
  predicate EndsInStar(steps: seq<PathStep>) {
    steps != [] && steps[|steps| - 1].AnyKey?
  }

  /**
   What is written for a list of steps is read as this list, unless it ends in a wildcard and the
   byte behind the text happens to be a star: then the scanner leaves the text.
   */
  lemma {:induction false} PathRoundTrip(path: string, next: char, i: nat, steps: seq<PathStep>)
    requires i <= |path| && path[i..] == Render(steps)
    requires forall s :: 0 <= s < |steps| ==> Writable(steps[s])
    ensures Parse(path, next, i) == if EndsInStar(steps) && next == '*' then Overrun else Steps(steps)
    decreases |steps|
  {
    hide KeyAt, IndexAt, KeySteps, RenderStep, Writable, Parse;
    ParseEnd(path, next);
    if steps != [] {
      var text := RenderStep(steps[0]);
      RestOfText(path, i, text, Render(steps[1..]));
      assert steps == [steps[0]] + steps[1..];
      if |steps| == 1 && EndsInStar(steps) && next == '*' {
        assert steps[1..] == [];
        LastStar(path, i);
      } else {
        PathRoundTrip(path, next, i + |text|, steps[1..]);
        StepWritten(path, next, i, steps[0]);
        PushStep(path, next, i, steps[0], i + |text|);
      }
    }
  }

  lemma LastStar(path: string, i: nat)
    requires Has(path, i, RenderStep(AnyKey)) && i + |RenderStep(AnyKey)| == |path|
    ensures Parse(path, '*', i) == Overrun
  {
    HasAt(path, i, RenderStep(AnyKey), 0);
    HasAt(path, i, RenderStep(AnyKey), 1);
  }

  lemma PushStep(path: string, next: char, i: nat, step: PathStep, end: nat)
    requires i + 1 < |path| && i < end <= |path|
    requires path[i] == '.' || path[i] == '['
    requires path[i] == '.' ==>
      var k := KeyAt(path, next, i + 1);
      k.IsValid() && KeySteps(k) == [step] && i + 1 + k.charsRead == end
    requires path[i] == '[' ==> IndexAt(path, i + 1) == IndexRead(step, end)
    ensures Parse(path, next, i) == Then([step], Parse(path, next, end))
  {
    hide KeyAt, IndexAt, KeySteps;
  }

  lemma RestOfText(path: string, i: nat, text: string, rest: string)
    requires i <= |path| && path[i..] == text + rest
    ensures Has(path, i, text) && path[i + |text|..] == rest
    ensures rest != "" ==> i + |text| < |path| && path[i + |text|] == rest[0]
  {
    assert path[i..][..|text|] == text && path[i..][|text|..] == rest;
  }

  lemma StepWritten(path: string, next: char, i: nat, step: PathStep)
    requires Writable(step) && Has(path, i, RenderStep(step))
    requires i + |RenderStep(step)| < |path| ==>
      path[i + |RenderStep(step)|] == '.' || path[i + |RenderStep(step)|] == '['
    requires i + |RenderStep(step)| == |path| && step.AnyKey? ==> next != '*'
    ensures i + 1 < |path| && path[i] == (if step.Index? || step.AnyIndex? then '[' else '.')
    ensures path[i] == '.' ==> KeyAt(path, next, i + 1).IsValid() && KeySteps(KeyAt(path, next, i + 1)) == [step]
    ensures path[i] == '.' ==> i + 1 + KeyAt(path, next, i + 1).charsRead == i + |RenderStep(step)|
    ensures path[i] == '[' ==> IndexAt(path, i + 1) == IndexRead(step, i + |RenderStep(step)|)
  {
    hide IndexAt, KeyAt, Escape, Decimal, Has;
    match step
    case Key(name) =>
      assert RenderStep(step) == QuotedKey(name);
      QuotedKeyExactly(path, next, i, name);
      QuotedKeyRead(path, next, i, name);
    case Index(_, _) => IndexWritten(path, i, step);
    case _ => WildCardWritten(path, next, i, step);
  }

  lemma WildCardWritten(path: string, next: char, i: nat, step: PathStep)
    requires IsWildCardStep(step) && Has(path, i, RenderStep(step))
    requires i + |RenderStep(step)| < |path| ==>
      path[i + |RenderStep(step)|] == '.' || path[i + |RenderStep(step)|] == '['
    requires i + |RenderStep(step)| == |path| && step.AnyKey? ==> next != '*'
    ensures i + 1 < |path| && path[i] == (if step.AnyIndex? then '[' else '.')
    ensures path[i] == '.' ==> KeyAt(path, next, i + 1).IsValid() && KeySteps(KeyAt(path, next, i + 1)) == [step]
    ensures path[i] == '.' ==> i + 1 + KeyAt(path, next, i + 1).charsRead == i + |RenderStep(step)|
    ensures path[i] == '[' ==> IndexAt(path, i + 1) == IndexRead(step, i + |RenderStep(step)|)
  {
    hide NameAt, NumberAt, Escape, Decimal, Has;
    HasLength(path, i, RenderStep(step));
    HasAt(path, i, RenderStep(step), 0);
    HasAt(path, i, RenderStep(step), 1);
    HasAt(path, i, RenderStep(step), |RenderStep(step)| - 1);
  }

  lemma HasLength(path: string, i: nat, piece: string)
    requires Has(path, i, piece)
    ensures i + |piece| <= |path|
  {
  }

  // ---------------------------------------------------------------- when the scanner leaves the text

  predicate AllDigits(path: string, i: nat) {
    forall k :: i <= k < |path| ==> IsDigit(path[k])
  }

  /** The text ends in an opening bracket, perhaps a sign, and 19 digits; there is no closing bracket. */
  predicate LongIndexAt(path: string, i: nat) {
    && i < |path| && path[i] == '['
    && var sign := |path| - i - 20;
       && (sign == 0 || (sign == 1 && path[i + 1] == '-') || (sign == 2 && path[i + 1] == '#' && path[i + 2] == '-'))
       && AllDigits(path, |path| - 19)
  }

  lemma {:induction false} DigitsToEnd(path: string, i: nat, n: nat, value: nat)
    requires i + n == |path| && AllDigits(path, i)
    ensures Digits(path, i, n, value).Some? && Digits(path, i, n, value).value.0 == |path|
    decreases n
  {
    if n > 0 {
      DigitsToEnd(path, i + 1, n - 1, value * 10 + Digit(path[i]));
    }
  }

  lemma {:induction false} DigitsWereRead(path: string, i: nat, n: nat, value: nat)
    requires i <= |path| && Digits(path, i, n, value).Some? && Digits(path, i, n, value).value.0 == |path|
    ensures i + n == |path| && AllDigits(path, i)
    decreases n
  {
    if n > 0 {
      DigitsWereRead(path, i + 1, n - 1, value * 10 + Digit(path[i]));
    }
  }

  lemma NumberOverrun(path: string, i: nat, fromBack: bool)
    requires i <= |path|
    ensures NumberAt(path, i, fromBack).IndexRead? && NumberAt(path, i, fromBack).end > |path| <==>
      i + 19 == |path| && AllDigits(path, i)
  {
    hide Digits, AllDigits;
    if i + 19 == |path| && AllDigits(path, i) {
      DigitsToEnd(path, i, 19, 0);
    }
    match Digits(path, i, 19, 0)
    case None =>
    case Some((end, _)) =>
      if end == |path| {
        DigitsWereRead(path, i, 19, 0);
      }
  }

  lemma IndexOverrun(path: string, i: nat)
    requires i + 1 < |path| && path[i] == '['
    ensures IndexAt(path, i + 1).IndexRead? && IndexAt(path, i + 1).end > |path| <==> LongIndexAt(path, i)
  {
    hide NumberAt;
    NumberOverrun(path, i + 1, false);
    NumberOverrun(path, i + 2, true);
    if i + 3 <= |path| {
      NumberOverrun(path, i + 3, true);
    }
  }

  /** With a zero behind the text, keys end in the text. */
  lemma ZeroKeepsKey(path: string, i: nat)
    requires i < |path|
    ensures i + KeyAt(path, ZERO, i).charsRead <= |path|
  {
  }

  lemma {:induction false} OverrunIsLongIndex(path: string, i: nat) returns (n: nat)
    requires i <= |path| && Parse(path, ZERO, i) == Overrun
    ensures i <= n && LongIndexAt(path, n)
    decreases |path| - i
  {
    hide KeyAt, IndexAt, LongIndexAt;
    if path[i] == '.' {
      ZeroKeepsKey(path, i + 1);
      n := OverrunIsLongIndex(path, i + 1 + KeyAt(path, ZERO, i + 1).charsRead);
    } else {
      IndexOverrun(path, i);
      if LongIndexAt(path, i) {
        n := i;
      } else {
        n := OverrunIsLongIndex(path, IndexAt(path, i + 1).end);
      }
    }
  }

  /** Two texts that agree up to a bracket behind which neither has a quote or a star. */
  predicate SameUpTo(p: string, q: string, n: nat) {
    && n < |p| && n < |q| && p[n] == q[n] == '['
    && (forall k :: 0 <= k <= n ==> p[k] == q[k])
    && (forall k :: n < k < |p| ==> p[k] != '"')
    && (forall k :: n < k < |q| ==> q[k] != '"')
  }

  lemma {:induction false} NoQuote(path: string, i: nat)
    requires i <= |path| && forall k :: i <= k < |path| ==> path[k] != '"'
    ensures Unquote(path, i).None?
    decreases |path| - i
  {
    if i < |path| {
      if path[i] == '\\' {
        if i + 1 < |path| {
          NoQuote(path, i + 2);
        }
      } else {
        NoQuote(path, i + 1);
      }
    }
  }

  lemma {:induction false} UnquoteSame(p: string, q: string, n: nat, i: nat)
    requires SameUpTo(p, q, n) && i <= n + 1
    ensures Unquote(p, i) == Unquote(q, i)
    ensures Unquote(p, i).Some? ==> Unquote(p, i).value.0 < n
    decreases n + 1 - i
  {
    if i == n + 1 {
      NoQuote(p, i);
      NoQuote(q, i);
    } else if i == n || (i + 1 == n && p[i] == '\\') {
      NoQuote(p, n);
      NoQuote(q, n);
      NoQuote(p, n + 1);
      NoQuote(q, n + 1);
    } else if p[i] != '"' {
      UnquoteSame(p, q, n, if p[i] == '\\' then i + 2 else i + 1);
    }
  }

  lemma {:induction false} KeyEndSame(p: string, q: string, n: nat, i: nat)
    requires SameUpTo(p, q, n) && i <= n
    ensures KeyEnd(p, i) == KeyEnd(q, i) <= n && p[i..KeyEnd(p, i)] == q[i..KeyEnd(p, i)]
    decreases n - i
  {
    if i < n && p[i] != '.' && p[i] != '[' {
      KeyEndSame(p, q, n, i + 1);
      assert p[i..KeyEnd(p, i)] == [p[i]] + p[i + 1..KeyEnd(p, i)];
      assert q[i..KeyEnd(p, i)] == [q[i]] + q[i + 1..KeyEnd(p, i)];
    }
  }

  lemma {:induction false} DigitsSame(p: string, q: string, n: nat, i: nat, m: nat, value: nat)
    requires SameUpTo(p, q, n) && i <= n
    ensures Digits(p, i, m, value) == Digits(q, i, m, value)
    ensures Digits(p, i, m, value).Some? ==> Digits(p, i, m, value).value.0 <= n
    decreases m
  {
    if m > 0 && i < n && IsDigit(p[i]) {
      DigitsSame(p, q, n, i + 1, m - 1, value * 10 + Digit(p[i]));
    }
  }

  lemma NameSame(p: string, q: string, n: nat, i: nat)
    requires SameUpTo(p, q, n) && i <= n
    ensures NameAt(p, i) == NameAt(q, i) && i + NameAt(p, i).charsRead <= n
  {
    hide Unquote, KeyEnd;
    UnquoteSame(p, q, n, i + 1);
    KeyEndSame(p, q, n, i);
  }

  lemma KeySame(p: string, q: string, n: nat, i: nat)
    requires SameUpTo(p, q, n) && i <= n
    ensures KeyAt(p, ZERO, i) == KeyAt(q, ZERO, i) && i + KeyAt(p, ZERO, i).charsRead <= n
  {
    hide NameAt;
    NameSame(p, q, n, i);
    if i < n {
      NameSame(p, q, n, i + 1);
    }
  }

  lemma NumberSame(p: string, q: string, n: nat, i: nat, fromBack: bool)
    requires SameUpTo(p, q, n) && i <= n
    ensures NumberAt(p, i, fromBack) == NumberAt(q, i, fromBack)
    ensures NumberAt(p, i, fromBack).IndexRead? ==> NumberAt(p, i, fromBack).end <= n + 1
  {
    hide Digits;
    DigitsSame(p, q, n, i, SAFE_DIGITS, 0);
  }

  lemma IndexSame(p: string, q: string, n: nat, i: nat)
    requires SameUpTo(p, q, n) && i <= n
    ensures IndexAt(p, i) == IndexAt(q, i)
    ensures IndexAt(p, i).IndexRead? ==> IndexAt(p, i).end <= n + 1
  {
    hide NumberAt;
    NumberSame(p, q, n, i, false);
    if i + 1 <= n {
      NumberSame(p, q, n, i + 1, true);
    }
    if i + 2 <= n {
      NumberSame(p, q, n, i + 2, true);
    }
  }

  /** If one text is left and the other is accepted from the bracket on, the same holds from an earlier place on. */
  lemma {:induction false} ParseSame(p: string, q: string, n: nat, i: nat)
    requires SameUpTo(p, q, n) && i <= n + 1
    requires Parse(p, ZERO, n) == Overrun && Parse(q, ZERO, n).Steps?
    requires Parse(p, ZERO, n + 1) == Invalid && Parse(q, ZERO, n + 1) == Invalid
    ensures Parse(p, ZERO, i) == Overrun <==> Parse(q, ZERO, i).Steps?
    decreases n + 1 - i
  {
    hide KeyAt, IndexAt;
    if i < n {
      if p[i] == '.' {
        KeySame(p, q, n, i + 1);
        if KeyAt(p, ZERO, i + 1).IsValid() {
          ParseSame(p, q, n, i + 1 + KeyAt(p, ZERO, i + 1).charsRead);
        }
      } else if p[i] == '[' {
        IndexSame(p, q, n, i + 1);
        if IndexAt(p, i + 1).IndexRead? {
          ParseSame(p, q, n, IndexAt(p, i + 1).end);
        }
      }
    }
  }

  /** The path whose last index is 0 instead. */
  function WithZero(path: string, n: nat): (r: string)
    requires n <= |path|
    ensures |r| == n + 3
  {
    path[..n] + "[0]"
  }

  lemma ZeroRead(path: string, n: nat)
    requires n <= |path|
    ensures Parse(WithZero(path, n), ZERO, n).Steps? && Parse(WithZero(path, n), ZERO, n + 1) == Invalid
  {
    hide KeyAt;
    var q := WithZero(path, n);
    assert q[n] == '[' && q[n + 1] == '0' && q[n + 2] == ']';
    var end: nat := n + 2;
    assert Digits(q, end, 18, 0) == Some((end, 0));
    assert IndexAt(q, n + 1) == IndexRead(Index(0, false), n + 3);
  }

  lemma SameWithZero(path: string, n: nat)
    requires LongIndexAt(path, n)
    ensures SameUpTo(path, WithZero(path, n), n)
    ensures Parse(path, ZERO, n) == Overrun && Parse(WithZero(path, n), ZERO, n).Steps?
    ensures Parse(path, ZERO, n + 1) == Invalid && Parse(WithZero(path, n), ZERO, n + 1) == Invalid
  {
    hide KeyAt, IndexAt;
    IndexOverrun(path, n);
    ZeroRead(path, n);
  }

  /**
   If a zero stands behind the text, validation reads beyond it exactly when the text ends in an
   unclosed index of 19 digits and the path with the index [0] in its place is accepted.
   */
  lemma TerminatedOverrun(path: string)
    requires |path| >= 1 && path[0] == '$'
    ensures Parse(path, ZERO, 1) == Overrun <==> EndsInLongIndex(path)
  {
    hide SameUpTo, WithZero, Parse, AllDigits;
    if Parse(path, ZERO, 1) == Overrun {
      var n := OverrunIsLongIndex(path, 1);
      SameWithZero(path, n);
      ParseSame(path, WithZero(path, n), n, 1);
    } else {
      forall n: nat | LongIndexAt(path, n)
        ensures !Parse(WithZero(path, n), ZERO, 1).Steps?
      {
        SameWithZero(path, n);
        ParseSame(path, WithZero(path, n), n, 1);
      }
    }
  }

  predicate EndsInLongIndex(path: string) {
    exists n: nat :: n < |path| && LongIndexAt(path, n) && 1 <= n && Parse(WithZero(path, n), ZERO, 1).Steps?
  }

  lemma NineteenDigitsOverrun()
    ensures Parse("$[0000000000000000000", ZERO, 1) == Overrun
  {
    hide IndexAt, KeyAt;
    assert LongIndexAt("$[0000000000000000000", 1);
    IndexOverrun("$[0000000000000000000", 1);
  }

  // ---------------------------------------------------------------- what the byte behind the text changes

  predicate EndsInDescend(r: Parsed) {
    r.Steps? && r.steps != [] && r.steps[|r.steps| - 1].Descend?
  }

  /**
   With a star behind it the path ends in a recursive wildcard: the scanner then looks behind the
   text, where that star would be.
   */
  predicate StarCompletes(path: string, i: nat)
    requires i <= |path|
  {
    EndsInDescend(Parse(path + "*", ZERO, i))
  }

  predicate EndsInDot(path: string) {
    path != "" && path[|path| - 1] == '.'
  }

  /** What becomes of a path that a star completes; elsewhere it is as if a zero stood behind the text. */
  predicate Goes(path: string, next: char, r: Parsed, zero: Parsed) {
    if next == '*' then r == Overrun
    else if EndsInDot(path) && next == '"' then r == Failure && zero == Invalid
    else if EndsInDot(path) && next == '[' then r.Steps? && zero == Invalid
    else r == zero
  }

  lemma {:induction false} StarUnquote(path: string, i: nat)
    requires i <= |path|
    ensures Unquote(path + "*", i) == Unquote(path, i)
    decreases |path| - i
  {
    var q := path + "*";
    if i == |path| {
      assert Unquote(q, i + 1) == None;
    } else if path[i] == '\\' {
      if i + 1 < |path| {
        StarUnquote(path, i + 2);
      } else {
        assert Unquote(q, i + 2) == None;
      }
    } else if path[i] != '"' {
      StarUnquote(path, i + 1);
    }
  }

  lemma {:induction false} StarKeyEnd(path: string, i: nat)
    requires i <= |path|
    ensures KeyEnd(path + "*", i) == if KeyEnd(path, i) == |path| then |path| + 1 else KeyEnd(path, i)
    decreases |path| - i
  {
    if i == |path| {
      assert KeyEnd(path + "*", i + 1) == i + 1;
    } else if path[i] != '.' && path[i] != '[' {
      StarKeyEnd(path, i + 1);
    }
  }

  lemma {:induction false} StarDigits(path: string, i: nat, n: nat, value: nat)
    requires i <= |path|
    ensures Digits(path + "*", i, n, value) == Digits(path, i, n, value)
    decreases n
  {
    if n > 0 && i < |path| && IsDigit(path[i]) {
      StarDigits(path, i + 1, n - 1, value * 10 + Digit(path[i]));
    }
  }

  lemma StarIndex(path: string, i: nat)
    requires i < |path|
    ensures IndexAt(path + "*", i) == IndexAt(path, i)
  {
    hide Digits;
    StarDigits(path, i, SAFE_DIGITS, 0);
    StarDigits(path, i + 1, SAFE_DIGITS, 0);
    if i + 2 <= |path| {
      StarDigits(path, i + 2, SAFE_DIGITS, 0);
    }
  }

  /** A name that ends in the text is not touched by the star; one that goes to its end takes it in. */
  lemma StarName(path: string, i: nat)
    requires i <= |path|
    ensures
      var n, m := NameAt(path, i), NameAt(path + "*", i);
      && !m.recursive
      && (i + n.charsRead < |path| || (i < |path| && path[i] == '"') ==> m == n)
      && (i + n.charsRead == |path| && !(i < |path| && path[i] == '"') ==>
           m.charsRead == n.charsRead + 1 && |m.key| == |n.key| + 1 && (i < |path| ==> m.key[0] == path[i]))
  {
    hide Unquote, KeyEnd;
    StarUnquote(path, i);
    if i + 1 <= |path| {
      StarUnquote(path, i + 1);
    }
    StarKeyEnd(path, i);
  }

  /** The scanner looks behind the text when a star or a second dot is its last character. */
  predicate Touches(path: string, i: nat)
    requires i < |path|
  {
    i + 1 == |path| && (path[i] == '*' || path[i] == '.')
  }

  lemma KeyTouches(path: string, next: char, i: nat)
    requires i < |path| && Touches(path, i)
    ensures KeyAt(path + "*", ZERO, i) == KeyRead(2, true, "*")
    ensures KeyAt(path, ZERO, i) == if path[i] == '*' then KeyRead(1, false, "*") else NO_KEY
    ensures KeyAt(path, next, i) ==
      if next == '*' then KeyRead(2, true, "*")
      else if path[i] == '*' then KeyRead(1, false, "*")
      else if next == '[' then KeyRead(1, true, "*")
      else NO_KEY
    ensures FailsAt(path, next, i) <==> path[i] == '.' && next == '"'
  {
  }

  lemma KeyUntouched(path: string, next: char, i: nat)
    requires i < |path| && !Touches(path, i)
    ensures
      var z, m := KeyAt(path, ZERO, i), KeyAt(path + "*", ZERO, i);
      && KeyAt(path, next, i) == z && i + z.charsRead <= |path|
      && (m == z || (z.IsValid() && i + z.charsRead == |path| && m.charsRead == z.charsRead + 1 && !m.IsWildCard()))
  {
    hide NameAt;
    StarName(path, i);
    StarName(path, i + 1);
  }

  lemma ThenDescend(first: seq<PathStep>, r: Parsed)
    requires r.Steps? ==> r.steps != []
    ensures EndsInDescend(Then(first, r)) <==> EndsInDescend(r)
  {
  }

  predicate EndsInDotStarOrDots(path: string) {
    |path| >= 2 && path[|path| - 2] == '.' && (path[|path| - 1] == '*' || path[|path| - 1] == '.')
  }

  /** The byte behind the text changes what is read exactly in these cases, and only behind .* and two dots. */
  lemma {:induction false} NextByteMatters(path: string, next: char, i: nat)
    requires i <= |path|
    ensures StarCompletes(path, i) ==> EndsInDotStarOrDots(path)
    ensures if StarCompletes(path, i) then Goes(path, next, Parse(path, next, i), Parse(path, ZERO, i))
            else Parse(path, next, i) == Parse(path, ZERO, i)
    decreases |path| - i
  {
    hide KeyAt, IndexAt, Parse;
    if i + 1 >= |path| {
      AtTheEnd(path, next, i);
    } else if path[i] == '.' {
      if Touches(path, i + 1) {
        StepTouches(path, next, i);
      } else {
        KeyUntouched(path, next, i + 1);
        AtTheEnd(path, next, |path|);
        var e := i + 1 + KeyAt(path, ZERO, i + 1).charsRead;
        if KeyAt(path, ZERO, i + 1).IsValid() {
          NextByteMatters(path, next, e);
        }
        StepUntouched(path, next, i);
      }
    } else if path[i] == '[' {
      StarIndex(path, i + 1);
      var r := IndexAt(path, i + 1);
      if r.IndexRead? && r.end <= |path| {
        NextByteMatters(path, next, r.end);
      }
      IndexStepSame(path, next, i);
    } else {
      OtherStep(path, next, i);
    }
  }

  lemma AtTheEnd(path: string, next: char, i: nat)
    requires i <= |path| <= i + 1
    ensures Parse(path, next, i) == Parse(path, ZERO, i) && !StarCompletes(path, i)
  {
    hide KeyAt, IndexAt;
    if i + 1 == |path| && path[i] == '.' {
      StarBehindDot(path);
    } else if i + 1 == |path| && path[i] == '[' {
      StarBehindBracket(path);
    }
  }

  lemma StarBehindDot(path: string)
    requires path != "" && path[|path| - 1] == '.'
    ensures Parse(path + "*", ZERO, |path| - 1) == Steps([AnyKey])
  {
    var q := path + "*";
    assert KeyAt(q, ZERO, |path|) == KeyRead(1, false, "*");
    ParseEnd(q, ZERO);
    PushStep(q, ZERO, |path| - 1, AnyKey, |q|);
  }

  lemma StarBehindBracket(path: string)
    requires path != "" && path[|path| - 1] == '['
    ensures Parse(path + "*", ZERO, |path| - 1) == Invalid
  {
    assert IndexAt(path + "*", |path|) == BadIndex;
  }

  lemma OtherStep(path: string, next: char, i: nat)
    requires i + 1 < |path| && path[i] != '.' && path[i] != '['
    ensures Parse(path, next, i) == Invalid == Parse(path, ZERO, i) && !StarCompletes(path, i)
  {
  }

  lemma StepTouches(path: string, next: char, i: nat)
    requires i + 1 < |path| && path[i] == '.' && Touches(path, i + 1)
    ensures StarCompletes(path, i) && EndsInDotStarOrDots(path)
    ensures Goes(path, next, Parse(path, next, i), Parse(path, ZERO, i))
  {
    hide KeyAt;
    KeyTouches(path, next, i + 1);
    ParseEnd(path, next);
    ParseEnd(path, ZERO);
    ParseEnd(path + "*", ZERO);
  }

  lemma StepUntouched(path: string, next: char, i: nat)
    requires i + 1 < |path| && path[i] == '.' && !Touches(path, i + 1)
    ensures
      var k := KeyAt(path, ZERO, i + 1);
      var e := i + 1 + k.charsRead;
      && e <= |path| && KeyAt(path, next, i + 1) == k
      && Parse(path, next, i) == (if k.IsValid() then Then(KeySteps(k), Parse(path, next, e)) else Invalid)
      && Parse(path, ZERO, i) == (if k.IsValid() then Then(KeySteps(k), Parse(path, ZERO, e)) else Invalid)
      && (StarCompletes(path, i) <==> k.IsValid() && KeyAt(path + "*", ZERO, i + 1) == k && StarCompletes(path, e))
      && (KeyAt(path + "*", ZERO, i + 1) != k ==> e == |path|)
  {
    hide KeyAt, KeySteps, Parse, Then, EndsInDescend;
    var q := path + "*";
    KeyUntouched(path, next, i + 1);
    KeyStep(path, next, i);
    KeyStep(path, ZERO, i);
    KeyStep(q, ZERO, i);
    var k, m := KeyAt(path, ZERO, i + 1), KeyAt(q, ZERO, i + 1);
    InvalidIsNoDescend();
    if m == k {
      StarLeft(path, i + 1 + k.charsRead);
      ThenDescend(KeySteps(k), Parse(q, ZERO, i + 1 + k.charsRead));
    } else {
      ParseEnd(q, ZERO);
      LastKey(m);
    }
  }

  lemma InvalidIsNoDescend()
    ensures !EndsInDescend(Invalid)
  {
  }

  lemma KeyStep(path: string, next: char, i: nat)
    requires i + 1 < |path| && path[i] == '.' && i + 1 + KeyAt(path, next, i + 1).charsRead <= |path|
    requires !FailsAt(path, next, i + 1)
    ensures
      var k := KeyAt(path, next, i + 1);
      Parse(path, next, i) == if k.IsValid() then Then(KeySteps(k), Parse(path, next, i + 1 + k.charsRead)) else Invalid
  {
    hide KeyAt, KeySteps, Then;
  }

  lemma LastKey(k: KeyRead)
    requires !k.IsWildCard()
    ensures !EndsInDescend(Then(KeySteps(k), Steps([])))
  {
  }

  /** Before the star, something is left to read. */
  lemma StarLeft(path: string, i: nat)
    requires i <= |path|
    ensures Parse(path + "*", ZERO, i).Steps? ==> Parse(path + "*", ZERO, i).steps != []
  {
    hide KeyAt, IndexAt;
    if Parse(path + "*", ZERO, i).Steps? {
      EndOfPath(path + "*", ZERO, i, Parse(path + "*", ZERO, i).steps);
    }
  }

  lemma IndexStepSame(path: string, next: char, i: nat)
    requires i + 1 < |path| && path[i] == '['
    ensures
      var r := IndexAt(path, i + 1);
      && (r.BadIndex? ==> Parse(path, next, i) == Invalid == Parse(path, ZERO, i) && !StarCompletes(path, i))
      && (r.IndexRead? && r.end > |path| ==>
           Parse(path, next, i) == Overrun == Parse(path, ZERO, i) && !StarCompletes(path, i))
      && (r.IndexRead? && r.end <= |path| ==>
            && Parse(path, next, i) == Then([r.step], Parse(path, next, r.end))
            && Parse(path, ZERO, i) == Then([r.step], Parse(path, ZERO, r.end))
            && (StarCompletes(path, i) <==> StarCompletes(path, r.end)))
  {
    hide IndexAt;
    StarIndex(path, i + 1);
    var r := IndexAt(path, i + 1);
    if r.IndexRead? {
      if r.end <= |path| {
        StarLeft(path, r.end);
        ThenDescend([r.step], Parse(path + "*", ZERO, r.end));
      } else {
        ParseEnd(path + "*", ZERO);
      }
    }
  }

  /**
   Validation reads beyond the text exactly in two cases: the text ends in an unclosed index of 19
   digits, or a star behind it makes the scanner go on there. Then the path with that star appended is
   one that ends in a recursive wildcard.
   */
  lemma OverrunExactly(path: string, next: char)
    requires |path| >= 1 && path[0] == '$'
    ensures Parse(path, next, 1) == Overrun <==> EndsInLongIndex(path) || (next == '*' && StarCompletes(path, 1))
    ensures StarCompletes(path, 1) ==> EndsInDotStarOrDots(path)
    ensures next == ZERO ==> (Parse(path, next, 1) == Overrun <==> EndsInLongIndex(path))
  {
    hide Parse, EndsInLongIndex, StarCompletes;
    TerminatedOverrun(path);
    NextByteMatters(path, next, 1);
  }

  /** Validation fails for want of memory exactly if a quote stands behind a text that ends in two dots. */
  lemma FailureExactly(path: string, next: char)
    requires |path| >= 1 && path[0] == '$'
    ensures Parse(path, next, 1) == Failure <==> next == '"' && EndsInDot(path) && StarCompletes(path, 1)
  {
    hide Parse, EndsInLongIndex, StarCompletes;
    NextByteMatters(path, next, 1);
    ZeroNeverFails(path, 1);
  }

  lemma {:induction false} ZeroNeverFails(path: string, i: nat)
    requires i <= |path|
    ensures Parse(path, ZERO, i) != Failure
    decreases |path| - i
  {
    hide KeyAt, IndexAt, KeySteps;
    if i + 1 < |path| && path[i] == '.' {
      var k := KeyAt(path, ZERO, i + 1);
      if k.IsValid() && i + 1 + k.charsRead <= |path| {
        ZeroNeverFails(path, i + 1 + k.charsRead);
      }
    } else if i + 1 < |path| && path[i] == '[' {
      var r := IndexAt(path, i + 1);
      if r.IndexRead? && r.end <= |path| {
        ZeroNeverFails(path, r.end);
      }
    }
  }

  /** The path $.* leaves the text if a star happens to stand behind it, and $.. fails if a quote does. */
  lemma StarBehindTheText()
    ensures Parse("$.*", '*', 1) == Overrun && Parse("$..", '"', 1) == Failure
    ensures Parse("$.*", ZERO, 1) == Steps([AnyKey]) && Parse("$..", ZERO, 1) == Invalid
  {
    KeyTouches("$.*", '*', 2);
    KeyTouches("$..", '"', 2);
    ParseEnd("$.*", ZERO);
    PushStep("$.*", ZERO, 1, AnyKey, 3);
  }

  // ---------------------------------------------------------------- what paths give, said of their characters

  /** What both evaluators give for a path, of which the one without wildcards gives the only match. */
  predicate Gives(path: string, next: char, root: Json, matches: seq<Json>) {
    |path| >= 1 && Parse(path, next, 1).Steps? && Denote(Parse(path, next, 1).steps, root) == matches
  }

  lemma DecimalIs(n: nat)
    ensures n < 10 ==> Decimal(n) == ["0123456789"[n]]
    ensures n >= 10 ==> Decimal(n) == Decimal(n / 10) + Decimal(n % 10)
  {
  }

  lemma OneStep(path: string, next: char, step: PathStep, root: Json)
    requires path == "$" + RenderStep(step) && Writable(step) && !(step.AnyKey? && next == '*')
    ensures Gives(path, next, root, Denote([step], root))
  {
    hide Parse, Denote, RenderStep, Writable;
    assert [step][1..] == [] && RenderStep(step) + "" == RenderStep(step);
    assert path[1..] == Render([step]);
    PathRoundTrip(path, next, 1, [step]);
  }

  lemma OneElement(index: nat, fromBack: bool, root: Json)
    ensures Denote([Index(index, fromBack)], root) ==
      if !root.Arr? then []
      else
        var n, elements := |root.elements|, root.elements;
        if fromBack && index != 0 then (if index <= n then [elements[n - index]] else [])
        else if index < n then [elements[index]] else []
  {
    OneNext(Index(index, fromBack), root);
  }

  lemma OneNext(step: PathStep, root: Json)
    requires !step.Descend?
    ensures Denote([step], root) == Next(step, root)
  {
    hide Denote, Next, DenoteAll;
    assert [step][1..] == [];
    StepDenotes([step], root);
    DenoteAllNothing(Next(step, root));
  }

  lemma RootWritten(root: Json, next: char)
    ensures Gives("$", next, root, [root])
  {
    ParseEnd("$", next);
  }

  lemma IndexFromFront(elements: seq<Json>, k: nat, next: char)
    requires |Decimal(k)| <= 18
    ensures Gives("$[" + Decimal(k) + "]", next, Arr(elements), if k < |elements| then [elements[k]] else [])
  {
    hide Parse, Denote, Decimal;
    OneStep("$[" + Decimal(k) + "]", next, Index(k, false), Arr(elements));
    OneElement(k, false, Arr(elements));
  }

  /** The k-th element from the back, and nothing in front of the first one. */
  lemma IndexFromBack(elements: seq<Json>, k: nat, next: char)
    requires 1 <= k && |Decimal(k)| <= 18
    ensures Gives("$[#-" + Decimal(k) + "]", next, Arr(elements),
                  if k <= |elements| then [elements[|elements| - k]] else [])
    ensures Gives("$[-" + Decimal(k) + "]", next, Arr(elements),
                  if k <= |elements| then [elements[|elements| - k]] else [])
  {
    hide Parse, Denote, Decimal;
    OneStep("$[#-" + Decimal(k) + "]", next, Index(k, true), Arr(elements));
    OneElement(k, true, Arr(elements));
    ShortFromBack("$[-" + Decimal(k) + "]", next, k);
  }

  lemma ShortFromBack(path: string, next: char, k: nat)
    requires |Decimal(k)| <= 18 && path == "$[-" + Decimal(k) + "]"
    ensures Parse(path, next, 1) == Steps([Index(k, true)])
  {
    hide NumberAt, Decimal, Parse;
    assert path[3..] == Decimal(k) + "]" == path[3..3 + |Decimal(k) + "]"|];
    NumberRead(path, 3, k, true);
    ParseEnd(path, next);
    PushStep(path, next, 1, Index(k, true), |path|);
  }

  lemma NoIndex(root: Json, k: nat, next: char)
    requires |Decimal(k)| <= 18 && !root.Arr?
    ensures Gives("$[" + Decimal(k) + "]", next, root, []) && Gives("$[#-" + Decimal(k) + "]", next, root, [])
  {
    hide Parse, Denote, Decimal;
    OneStep("$[" + Decimal(k) + "]", next, Index(k, false), root);
    OneStep("$[#-" + Decimal(k) + "]", next, Index(k, true), root);
    OneElement(k, false, root);
    OneElement(k, true, root);
  }

  /** The first field with a name. */
  predicate IsField(root: Json, name: string, matches: seq<Json>) {
    if exists i :: 0 <= i < FieldCount(root) && root.fields[i].key == name then
      exists i :: 0 <= i < FieldCount(root) && root.fields[i].key == name && matches == [root.fields[i].value]
        && forall j :: 0 <= j < i ==> root.fields[j].key != name
    else matches == []
  }

  function FieldCount(root: Json): nat {
    if root.Obj? then |root.fields| else 0
  }

  lemma {:induction false} LookupIs(fields: seq<Field>, name: string)
    ensures match Lookup(fields, name)
            case None => forall i :: 0 <= i < |fields| ==> fields[i].key != name
            case Some(value) =>
              exists i :: 0 <= i < |fields| && fields[i].key == name && value == fields[i].value
                && forall j :: 0 <= j < i ==> fields[j].key != name
  {
    if fields != [] && fields[0].key != name {
      LookupIs(fields[1..], name);
      if Lookup(fields[1..], name).Some? {
        var i :| 0 <= i < |fields[1..]| && fields[1..][i].key == name
          && Lookup(fields, name).value == fields[1..][i].value
          && forall j :: 0 <= j < i ==> fields[1..][j].key != name;
        assert fields[i + 1] == fields[1..][i];
        forall j | 0 <= j < i + 1 ensures fields[j].key != name {
          if j > 0 {
            assert fields[j] == fields[1..][j - 1];
          }
        }
      } else {
        forall i | 0 <= i < |fields| ensures fields[i].key != name {
          if i > 0 {
            assert fields[i] == fields[1..][i - 1];
          }
        }
      }
    }
  }

  lemma OneField(name: string, root: Json)
    ensures IsField(root, name, Denote([Key(name)], root))
  {
    hide Denote, Lookup;
    OneNext(Key(name), root);
    if root.Obj? {
      LookupIs(root.fields, name);
    }
  }

  lemma {:induction false} NothingEscaped(name: string)
    requires forall i :: 0 <= i < |name| ==> name[i] != '"' && name[i] != '\\'
    ensures Escape(name) == name
  {
    if name != "" {
      NothingEscaped(name[1..]);
    }
  }

  /** A name in quotes selects the first field with it. */
  lemma QuotedNameWritten(root: Json, name: string, next: char)
    requires name != "" && name != "*" && forall i :: 0 <= i < |name| ==> name[i] != '"' && name[i] != '\\'
    ensures exists matches :: IsField(root, name, matches) && Gives("$.\"" + name + "\"", next, root, matches)
  {
    hide Parse, Denote, IsField, Escape;
    NothingEscaped(name);
    assert "$.\"" + name + "\"" == "$" + RenderStep(Key(name));
    OneStep("$.\"" + name + "\"", next, Key(name), root);
    OneField(name, root);
  }

  lemma EscapedIs(name: string, c: char)
    ensures Escape([c] + name) == (if c == '"' || c == '\\' then ['\\', c] else [c]) + Escape(name)
    ensures Escape("") == ""
  {
    assert ([c] + name)[1..] == name;
  }

  /** A name without quotes, up to the end of the path. */
  lemma PlainNameWritten(root: Json, name: string, next: char)
    requires name != "" && name[0] != '"' && name[0] != '*'
    requires forall i :: 0 <= i < |name| ==> name[i] != '.' && name[i] != '['
    ensures exists matches :: IsField(root, name, matches) && Gives("$." + name, next, root, matches)
  {
    hide Parse, Denote, IsField;
    var path := "$." + name;
    WholeName(path, 2);
    ParseEnd(path, next);
    assert path[2..] == name && path[2..|path|] == path[2..];
    PushStep(path, next, 1, Key(name), |path|);
    assert [Key(name)] + [] == [Key(name)];
    OneField(name, root);
  }

  lemma {:induction false} WholeName(path: string, i: nat)
    requires i <= |path| && forall j :: i <= j < |path| ==> path[j] != '.' && path[j] != '['
    ensures KeyEnd(path, i) == |path|
    decreases |path| - i
  {
    if i < |path| {
      WholeName(path, i + 1);
    }
  }

  /** The wildcards give all values of an object and all elements of an array, in order. */
  lemma WildCardsWritten(root: Json, next: char)
    ensures Gives("$[*]", next, root, if root.Arr? then root.elements else [])
    ensures next != '*' ==>
      Gives("$.*", next, root, seq(FieldCount(root), i requires 0 <= i < FieldCount(root) => root.fields[i].value))
  {
    hide Parse, LevelOrder, Denote;
    OneStep("$[*]", next, AnyIndex, root);
    OneNext(AnyIndex, root);
    OneNext(AnyKey, root);
    if next != '*' {
      OneStep("$.*", next, AnyKey, root);
    }
  }

  /** The recursive wildcard gives a worklist without its first member: the root, then the children of each member. */
  lemma RecursiveWritten(root: Json, next: char)
    ensures exists all :: all == [root] + ChildrenOf(all) && Gives("$..*", next, root, all[1..])
  {
    hide Parse, LevelOrder, Denote, ChildrenOf;
    LevelOrderVisitsAll(root);
    WorklistIsClosed([root]);
    OneStep("$..*", next, Descend, root);
    DescendDenotes(root);
  }

  lemma DescendDenotes(root: Json)
    ensures LevelOrder([root]) != [] && Denote([Descend], root) == LevelOrder([root])[1..]
  {
    hide LevelOrder;
    LevelOrderVisitsAll(root);
    assert [Descend][1..] == [];
    DenoteAllNothing(LevelOrder([root])[1..]);
  }

  /** One path behind another is evaluated on each of the matches, in order. */
  lemma {:induction false} DenoteThen(first: seq<PathStep>, rest: seq<PathStep>, v: Json)
    requires rest != [] && (first != [] ==> !first[|first| - 1].Descend?)
    ensures Denote(first + rest, v) == DenoteAll(rest, Denote(first, v))
    decreases |first|, 0
  {
    hide LevelOrder, Pick, Lookup;
    var steps := first + rest;
    if first == [] {
      assert steps == rest && [v][1..] == [];
      assert DenoteAll(rest, [v]) == Denote(rest, v) + DenoteAll(rest, []);
    } else {
      assert steps[0] == first[0] && steps[1..] == first[1..] + rest;
      LevelOrderVisitsAll(v);
      DenoteAllThen(first[1..], rest, Next(first[0], v));
      StepDenotes(first, v);
      StepDenotes(steps, v);
    }
  }

  /** The values to which a step leads. */
  function Next(step: PathStep, v: Json): seq<Json> {
    match step
    case Key(name) => if v.Obj? then AsSeq(Lookup(v.fields, name)) else []
    case AnyKey => if v.Obj? then Children(v) else []
    case Index(index, fromBack) => if v.Arr? then AsSeq(Pick(index, fromBack, v.elements)) else []
    case AnyIndex => if v.Arr? then Children(v) else []
    case Descend => LevelOrder([v])
  }

  lemma StepDenotes(steps: seq<PathStep>, v: Json)
    requires steps != [] && (steps[0].Descend? ==> |steps| > 1)
    ensures Denote(steps, v) == DenoteAll(steps[1..], Next(steps[0], v))
  {
    hide LevelOrder, Pick, Lookup, DenoteAll, DenoteOption;
    var rest := steps[1..];
    NoValues(rest);
    match steps[0]
    case Key(name) =>
      if v.Obj? {
        OptionIsAll(rest, Lookup(v.fields, name));
      }
    case Index(index, fromBack) =>
      if v.Arr? {
        OptionIsAll(rest, Pick(index, fromBack, v.elements));
      }
    case _ =>
  }

  lemma NoValues(steps: seq<PathStep>)
    ensures DenoteAll(steps, []) == []
  {
  }

  lemma OptionIsAll(steps: seq<PathStep>, v: Option<Json>)
    ensures DenoteOption(steps, v) == DenoteAll(steps, AsSeq(v))
  {
    hide Denote;
    if v.Some? {
      assert [v.value][1..] == [];
      assert DenoteAll(steps, [v.value]) == Denote(steps, v.value) + DenoteAll(steps, []);
    }
  }

  lemma {:induction false} DenoteAllThen(first: seq<PathStep>, rest: seq<PathStep>, vs: seq<Json>)
    requires rest != [] && (first != [] ==> !first[|first| - 1].Descend?)
    ensures DenoteAll(first + rest, vs) == DenoteAll(rest, DenoteAll(first, vs))
    decreases |first|, 1, |vs|
  {
    hide LevelOrder, Denote;
    if vs != [] {
      DenoteThen(first, rest, vs[0]);
      DenoteAllThen(first, rest, vs[1..]);
      DenoteAllAppend(rest, Denote(first, vs[0]), DenoteAll(first, vs[1..]));
    }
  }

  lemma {:induction false} DenoteAllAppend(steps: seq<PathStep>, a: seq<Json>, b: seq<Json>)
    ensures DenoteAll(steps, a + b) == DenoteAll(steps, a) + DenoteAll(steps, b)
    decreases |a|
  {
    hide Denote;
    if a == [] {
      assert a + b == b;
    } else {
      assert (a + b)[1..] == a[1..] + b && (a + b)[0] == a[0];
      DenoteAllAppend(steps, a[1..], b);
    }
  }

  /** A recursive name looks for the name in each member of that worklist, the root included. */
  lemma RecursiveNameWritten(root: Json, name: string, next: char)
    requires name != "" && name[0] != '"' && name[0] != '*'
    requires forall i :: 0 <= i < |name| ==> name[i] != '.' && name[i] != '['
    ensures exists all ::
      all == [root] + ChildrenOf(all) && Gives("$.." + name, next, root, DenoteAll([Key(name)], all))
  {
    hide Parse, LevelOrder, Denote;
    var path, all := "$.." + name, LevelOrder([root]);
    LevelOrderVisitsAll(root);
    WorklistIsClosed([root]);
    RecursiveNameParsed(path, name, next);
    var steps := [Descend, Key(name)];
    assert steps[1..] == [Key(name)];
    StepDenotes(steps, root);
  }

  lemma RecursiveNameParsed(path: string, name: string, next: char)
    requires path == "$.." + name && name != "" && name[0] != '"' && name[0] != '*'
    requires forall i :: 0 <= i < |name| ==> name[i] != '.' && name[i] != '['
    ensures Parse(path, next, 1) == Steps([Descend, Key(name)])
  {
    WholeName(path, 3);
    ParseEnd(path, next);
    assert path[3..] == name && path[3..|path|] == path[3..];
    assert KeyAt(path, next, 2) == KeyRead(|name| + 1, true, name);
    assert [Descend, Key(name)] + [] == [Descend, Key(name)];
  }

  /** The empty index from the back selects nothing of an array with less than 2^32 elements. */
  lemma HashWritten(root: Json, next: char)
    requires root.Arr? ==> |root.elements| < 0x1_0000_0000
    ensures Gives("$[#]", next, root, [])
  {
    hide Denote;
    assert IndexAt("$[#]", 2) == IndexRead(Index(NO_ELEMENT, false), 4);
    ParseEnd("$[#]", next);
    hide IndexAt;
    PushStep("$[#]", next, 1, Index(NO_ELEMENT, false), 4);
    assert [Index(NO_ELEMENT, false)] + [] == [Index(NO_ELEMENT, false)];
    OneElement(NO_ELEMENT, false, root);
  }

  /** What is refused whatever stands in front of it. */
  lemma RefusedWritten(path: string, next: char, i: nat)
    requires 1 <= i < |path|
    ensures path[i] != '.' && path[i] != '[' ==> Parse(path, next, i) == Invalid
    ensures i + 1 == |path| ==> Parse(path, next, i) == Invalid
    ensures path[i] == '[' && i + 1 < |path| && path[i + 1] !in "0123456789*#-" ==> Parse(path, next, i) == Invalid
    ensures path[i] == '[' && i + 2 < |path| && path[i + 1] == '*' && path[i + 2] != ']' ==>
      Parse(path, next, i) == Invalid
    ensures path[i] == '[' && i + 2 < |path| && path[i + 1] == '#' && path[i + 2] != ']' && path[i + 2] != '-' ==>
      Parse(path, next, i) == Invalid
    ensures path[i] == '.' && i + 1 < |path| && path[i + 1] == '[' ==> Parse(path, next, i) == Invalid
  {
    DigitCharacters();
  }

  lemma DigitCharacters()
    ensures forall c: char :: c !in "0123456789*#-" ==> !IsDigit(c) && c != '*' && c != '#' && c != '-'
  {
    var starts := "0123456789*#-";
    assert starts[10] == '*' && starts[11] == '#' && starts[12] == '-';
    forall c: char | IsDigit(c) ensures c in starts {
      assert starts[c as int - '0' as int] == c;
    }
  }

  /** A quoted name that is not closed is refused. */
  lemma OpenQuoteRefused(path: string, next: char, i: nat)
    requires 1 <= i && i + 1 < |path| && path[i] == '.' && path[i + 1] == '"'
    requires forall j :: i + 2 <= j < |path| ==> path[j] != '"'
    ensures Parse(path, next, i) == Invalid
  {
    NoQuote(path, i + 2);
  }
}
