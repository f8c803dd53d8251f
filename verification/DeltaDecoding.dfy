/** Updates of the streaming protocol: a line carries an item position and one token per field, and a
    token may say "unchanged". A sender that encodes the changes of its rows is decoded without loss. */
module DeltaDecoding {
  import opened Basics

  datatype Field = Nothing | Text(text: string)

  type Item = map<string, Field>

  datatype Event = Event(pos: int, name: string, values: Item)

  datatype Result = Ok(event: Event) | ValueError | IndexError

  // ---- Text ----

  /** The parts of `s` between the bars, as Python's `split('|')`. */
  function Split(s: string): (r: seq<string>)
    ensures |r| >= 1
  {
    if s == "" then [""]
    else
      var rest := Split(s[1..]);
      if s[0] == '|' then [""] + rest else [[s[0]] + rest[0]] + rest[1..]
  }

  function Join(tokens: seq<string>): string
    requires |tokens| >= 1
  {
    if |tokens| == 1 then tokens[0] else tokens[0] + "|" + Join(tokens[1..])
  }

  /** `s` without the carriage returns and line feeds at its end. */
  function RStrip(s: string): string {
    if s != "" && (s[|s| - 1] == '\r' || s[|s| - 1] == '\n') then RStrip(s[..|s| - 1]) else s
  }

  predicate IsDigit(c: char) { '0' <= c <= '9' }

  predicate IsSpace(c: char) { c == ' ' || '\t' <= c <= '\r' }

  function Trim(s: string): string {
    if s == "" then s
    else if IsSpace(s[0]) then Trim(s[1..])
    else if IsSpace(s[|s| - 1]) then Trim(s[..|s| - 1])
    else s
  }

  /** Digits, with single underscores allowed between them. */
  predicate IsNumeral(s: string) {
    s != "" && IsDigit(s[0]) && IsDigit(s[|s| - 1])
    && (forall i :: 0 <= i < |s| ==> IsDigit(s[i]) || s[i] == '_')
    && (forall i :: 0 <= i < |s| - 1 ==> IsDigit(s[i]) || IsDigit(s[i + 1]))
  }

  function ValueOf(s: string): nat {
    if s == "" then 0
    else if !IsDigit(s[|s| - 1]) then ValueOf(s[..|s| - 1])
    else 10 * ValueOf(s[..|s| - 1]) + (s[|s| - 1] as int - '0' as int)
  }

  /** Python's `int` on ASCII text. */
  function ParseInt(s: string): Option<int> {
    var t := Trim(s);
    var digits := if t != "" && (t[0] == '+' || t[0] == '-') then t[1..] else t;
    if !IsNumeral(digits) then None
    else Some(if t[0] == '-' then 0 - ValueOf(digits) else ValueOf(digits))
  }

  // ---- Decoding ----

  function Decode(value: string, last: Field): Field {
    if value == "$" then Text("")
    else if value == "#" then Nothing
    else if value == "" then last
    else if value[0] == '#' || value[0] == '$' then Text(value[1..])
    else Text(value)
  }

  /** Keys paired with values as far as both go; a repeated key keeps its last value. */
  function Zip<T>(keys: seq<string>, values: seq<T>): map<string, T> {
    if keys == [] || values == [] then map[]
    else map[keys[0] := values[0]] + Zip(keys[1..], values[1..])
  }

  function Get(item: Item, key: string): Field {
    if key in item then item[key] else Nothing
  }

  function ItemAt(items: map<int, Item>, pos: int): Item {
    if pos in items then items[pos] else map[]
  }

  function DecodeAll(undecoded: map<string, string>, current: Item): Item {
    map key | key in undecoded :: Decode(undecoded[key], Get(current, key))
  }

  /** Indices count from the end when they are negative. */
  predicate IndexOk(names: seq<string>, index: int) { -|names| <= index < |names| }

  function NameAt(names: seq<string>, index: int): string
    requires IndexOk(names, index)
  {
    if index < 0 then names[|names| + index] else names[index]
  }

  /** What one line does to the items, and what it returns: the items change even when the position
      names no item. */
  function Notify(names: seq<string>, fields: seq<string>, items: map<int, Item>, line: string)
    : (map<int, Item>, Result)
  {
    var tokens := Split(RStrip(line));
    var parsed := ParseInt(tokens[0]);
    if parsed.None? then (items, ValueError)
    else
      var pos := parsed.value;
      var values := DecodeAll(Zip(fields, tokens[1..]), ItemAt(items, pos));
      (items[pos := values],
       if IndexOk(names, pos - 1) then Ok(Event(pos, NameAt(names, pos - 1), values)) else IndexError)
  }

  function NotifyAll(names: seq<string>, fields: seq<string>, items: map<int, Item>, lines: seq<string>)
    : (map<int, Item>, seq<Result>)
    decreases |lines|
  {
    if lines == [] then (items, [])
    else
      var (next, result) := Notify(names, fields, items, lines[0]);
      var (final, results) := NotifyAll(names, fields, next, lines[1..]);
      (final, [result] + results)
  }

  class Subscription {
    const itemNames: seq<string>
    const fieldNames: seq<string>
    var itemsMap: map<int, Item>
    var listeners: seq<nat>
    var delivered: seq<(nat, Event)>

    constructor (items: seq<string>, fields: seq<string>)
      ensures itemNames == items && fieldNames == fields
      ensures itemsMap == map[] && listeners == [] && delivered == []
    {
      itemNames, fieldNames := items, fields;
      itemsMap, listeners, delivered := map[], [], [];
    }

    method AddListener(listener: nat)
      modifies this`listeners
      ensures listeners == old(listeners) + [listener]
    {
      listeners := listeners + [listener];
    }

    /** Decodes a line, replaces the item, then calls every listener in turn. */
    method NotifyUpdate(line: string) returns (r: Result)
      modifies this`itemsMap, this`delivered
      ensures (itemsMap, r) == Notify(itemNames, fieldNames, old(itemsMap), line)
      ensures delivered == old(delivered)
                           + if r.Ok? then seq(|listeners|, i requires 0 <= i < |listeners| reads this => (listeners[i], r.event))
                             else []
    {
      var tokens := Split(RStrip(line));
      var undecoded := Zip(fieldNames, tokens[1..]);
      var parsed := ParseInt(tokens[0]);
      if parsed.None? { return ValueError; }
      var pos := parsed.value;
      var current := ItemAt(itemsMap, pos);
      itemsMap := itemsMap[pos := DecodeAll(undecoded, current)];
      if !IndexOk(itemNames, pos - 1) { return IndexError; }
      var event := Event(pos, NameAt(itemNames, pos - 1), itemsMap[pos]);
      for i := 0 to |listeners|
        invariant itemsMap == old(itemsMap)[pos := event.values]
        invariant delivered == old(delivered)
                               + seq(i, j requires 0 <= j < i <= |listeners| reads this => (listeners[j], event))
      {
        delivered := delivered + [(listeners[i], event)];
      }
      r := Ok(event);
    }
  }

  // ---- Text round trips ----

  predicate NoBar(s: string) { '|' !in s }

  lemma {:induction false} SplitAfterToken(token: string, s: string)
    requires NoBar(token)
    ensures Split(token) == [token]
    ensures Split(token + "|" + s) == [token] + Split(s)
  {
    var line := token + "|" + s;
    if token == "" {
      assert line[1..] == s;
    } else {
      SplitAfterToken(token[1..], s);
      assert line[1..] == token[1..] + "|" + s;
      assert [token[0]] + token[1..] == token;
    }
  }

  /** Tokens without a bar come back from the line they were joined into. */
  lemma {:induction false} SplitInvertsJoin(tokens: seq<string>)
    requires |tokens| >= 1 && forall i :: 0 <= i < |tokens| ==> NoBar(tokens[i])
    ensures Split(Join(tokens)) == tokens
  {
    if |tokens| == 1 {
      SplitAfterToken(tokens[0], "");
    } else {
      SplitAfterToken(tokens[0], Join(tokens[1..]));
      SplitInvertsJoin(tokens[1..]);
    }
  }

  /** Every line is the join of its parts, and no part holds a bar. */
  lemma {:induction false} JoinInvertsSplit(s: string)
    ensures Join(Split(s)) == s
    ensures forall i :: 0 <= i < |Split(s)| ==> NoBar(Split(s)[i])
  {
    if s != "" {
      JoinInvertsSplit(s[1..]);
      var rest := Split(s[1..]);
      if s[0] == '|' {
        assert ([""] + rest)[1..] == rest;
      } else if |rest| > 1 {
        assert Split(s)[1..] == rest[1..];
        assert [s[0]] + rest[0] + "|" + Join(rest[1..]) == [s[0]] + Join(rest);
      }
    }
  }

  predicate IsEol(s: string) { forall i :: 0 <= i < |s| ==> s[i] == '\r' || s[i] == '\n' }

  predicate NoEol(s: string) { '\r' !in s && '\n' !in s }

  lemma {:induction false} RStripRemovesEol(s: string, eol: string)
    requires (s != "" ==> s[|s| - 1] != '\r' && s[|s| - 1] != '\n') && IsEol(eol)
    ensures RStrip(s + eol) == s
    decreases |eol|
  {
    if eol == "" {
      assert s + eol == s;
    } else {
      RStripRemovesEol(s, eol[..|eol| - 1]);
      assert (s + eol)[..|s + eol| - 1] == s + eol[..|eol| - 1];
    }
  }

  function Decimal(n: nat): (r: string)
    ensures r != "" && forall i :: 0 <= i < |r| ==> IsDigit(r[i])
  {
    var digit := ('0' as int + n % 10) as char;
    if n < 10 then [digit] else Decimal(n / 10) + [digit]
  }

  lemma {:induction false} ValueOfDecimal(n: nat)
    ensures ValueOf(Decimal(n)) == n
  {
    var s := Decimal(n);
    if n >= 10 {
      ValueOfDecimal(n / 10);
      assert s[..|s| - 1] == Decimal(n / 10);
    } else {
      assert s[..0] == "";
    }
  }

  lemma ParseDecimal(n: nat)
    ensures ParseInt(Decimal(n)) == Some(n)
  {
    ValueOfDecimal(n);
    var s := Decimal(n);
    assert IsDigit(s[0]) && IsDigit(s[|s| - 1]);
    assert Trim(s) == s;
  }

  // ---- Numbers ----

  /** The decimal digits, single underscores between them allowed, that write `v`. */
  predicate Writes(s: string, v: nat) {
    var n := |s|;
    n > 0 && '0' <= s[n - 1] <= '9'
    && var digit := s[n - 1] as int - '0' as int;
       if n == 1 then v == digit
       else v % 10 == digit
            && (if s[n - 2] == '_' then n > 2 && Writes(s[..n - 2], v / 10) else Writes(s[..n - 1], v / 10))
  }

  lemma {:induction false} NumeralsIff(s: string, v: nat)
    ensures Writes(s, v) <==> IsNumeral(s) && ValueOf(s) == v
  {
    var n := |s|;
    if n > 1 && IsDigit(s[n - 1]) {
      var body := s[..n - 1];
      if s[n - 2] == '_' {
        if n > 2 {
          NumeralsIff(s[..n - 2], v / 10);
          assert body[..n - 2] == s[..n - 2];
          NumeralFront(s, n - 2);
        }
      } else {
        NumeralsIff(body, v / 10);
        NumeralFront(s, n - 1);
      }
    }
  }

  /** A numeral that goes on after `k` characters, with a digit or with an underscore and a digit. */
  lemma NumeralFront(s: string, k: nat)
    requires 0 < k < |s| && IsDigit(s[|s| - 1]) && (k == |s| - 1 || (k == |s| - 2 && s[k] == '_'))
    requires k == |s| - 1 ==> s[k - 1] != '_'
    ensures IsNumeral(s) <==> IsNumeral(s[..k])
  {
    var front := s[..k];
    assert forall i :: 0 <= i < k ==> front[i] == s[i];
    if IsNumeral(front) {
      forall i | 0 <= i < |s| - 1 ensures IsDigit(s[i]) || IsDigit(s[i + 1]) {
        if i < k - 1 { assert IsDigit(front[i]) || IsDigit(front[i + 1]); }
        else { assert IsDigit(front[k - 1]); }
      }
    }
    if IsNumeral(s) {
      assert IsDigit(s[k - 1]);
    }
  }

  predicate Spaces(s: string) {
    forall i :: 0 <= i < |s| ==> s[i] == ' ' || 9 <= s[i] as int <= 13
  }

  /** Digits that write a number behind an optional sign, with white space around them. */
  predicate Reads(s: string, l: string, sign: string, digits: string, r: string, n: int) {
    s == l + sign + digits + r && Spaces(l) && Spaces(r)
    && (sign == "" || sign == "+" || sign == "-")
    && if sign == "-" then n <= 0 && Writes(digits, -n) else n >= 0 && Writes(digits, n)
  }

  lemma {:induction false} TrimParts(s: string) returns (l: string, r: string)
    ensures s == l + Trim(s) + r && Spaces(l) && Spaces(r)
    decreases |s|
  {
    l, r := "", "";
    if s == "" {
    } else if IsSpace(s[0]) {
      l, r := TrimParts(s[1..]);
      l := [s[0]] + l;
      assert s == [s[0]] + s[1..];
    } else if IsSpace(s[|s| - 1]) {
      l, r := TrimParts(s[..|s| - 1]);
      r := r + [s[|s| - 1]];
      assert s == s[..|s| - 1] + [s[|s| - 1]];
    }
  }

  lemma {:induction false} TrimSpaces(l: string, t: string, r: string)
    requires Spaces(l) && Spaces(r) && t != "" && !IsSpace(t[0]) && !IsSpace(t[|t| - 1])
    ensures Trim(l + t + r) == t
    decreases |l| + |r|
  {
    var s := l + t + r;
    if l != "" {
      assert s[1..] == l[1..] + t + r;
      TrimSpaces(l[1..], t, r);
    } else if r != "" {
      assert s[..|s| - 1] == l + t + r[..|r| - 1];
      TrimSpaces(l, t, r[..|r| - 1]);
    } else {
      assert s == t;
    }
  }

  /** A text is read as a number exactly when it writes it. */
  lemma ParsesIff(s: string, n: int)
    ensures ParseInt(s) == Some(n)
       <==> exists l: string, sign: string, digits: string, r: string :: Reads(s, l, sign, digits, r, n)
  {
    hide ParseInt, Reads;
    if ParseInt(s) == Some(n) {
      var l, sign, digits, r := ParsedIsRead(s, n);
    }
    if l: string, sign: string, digits: string, r: string :| Reads(s, l, sign, digits, r, n) {
      ReadIsParsed(s, l, sign, digits, r, n);
    }
  }

  lemma ParsedIsRead(s: string, n: int) returns (l: string, sign: string, digits: string, r: string)
    requires ParseInt(s) == Some(n)
    ensures Reads(s, l, sign, digits, r, n)
  {
    hide Trim, Writes, ValueOf, Spaces;
    l, r := TrimParts(s);
    var t := Trim(s);
    var signed := t != "" && (t[0] == '+' || t[0] == '-');
    sign, digits := if signed then [t[0]] else "", if signed then t[1..] else t;
    NumeralsIff(digits, ValueOf(digits));
    if signed {
      assert sign == (if t[0] == '-' then "-" else "+");
    }
    assert t == sign + digits;
    assert s == l + sign + digits + r;
  }

  lemma ReadIsParsed(s: string, l: string, sign: string, digits: string, r: string, n: int)
    requires Reads(s, l, sign, digits, r, n)
    ensures ParseInt(s) == Some(n)
  {
    hide Trim, Writes, ValueOf;
    NumeralsIff(digits, if sign == "-" then -n else n);
    var t := sign + digits;
    assert digits[0] == t[|sign|] && t[|t| - 1] == digits[|digits| - 1];
    TrimSpaces(l, t, r);
    assert l + t + r == s;
    if sign != "" {
      assert t[0] == sign[0] && t[1..] == digits;
    } else {
      assert t == digits;
    }
  }

  // ---- One token ----

  /** The tokens that say `value` to a receiver holding `last`: empty when nothing changed, `#` for
      no value, `$` for the empty text, and otherwise the text behind one mark, which is needed only
      when the text itself starts with a mark. */
  predicate Says(token: string, last: Field, value: Field) {
    || (token == "" && value == last)
    || (value == Nothing && token == "#")
    || (value == Text("") && token == "$")
    || (value.Text? && value.text != "" && (token == "#" + value.text || token == "$" + value.text))
    || (value.Text? && value.text != "" && token == value.text && token[0] != '#' && token[0] != '$')
  }

  lemma DecodesIff(token: string, last: Field, value: Field)
    ensures Decode(token, last) == value <==> Says(token, last, value)
  {
    if token != "" {
      assert token == [token[0]] + token[1..];
    }
  }

  // ---- One line ----

  predicate Distinct(keys: seq<string>) {
    forall i, j :: 0 <= i < j < |keys| ==> keys[i] != keys[j]
  }

  lemma {:induction false} ZipAt<T>(keys: seq<string>, values: seq<T>, i: nat)
    requires Distinct(keys) && i < |keys|
    ensures keys[i] in Zip(keys, values) <==> i < |values|
    ensures i < |values| ==> Zip(keys, values)[keys[i]] == values[i]
  {
    if values != [] {
      ZipKeys(keys[1..], values[1..]);
      if i > 0 { ZipAt(keys[1..], values[1..], i - 1); }
    }
  }

  lemma {:induction false} ZipKeys<T>(keys: seq<string>, values: seq<T>)
    ensures forall key :: key in Zip(keys, values) ==> key in keys
  {
    if keys != [] && values != [] { ZipKeys(keys[1..], values[1..]); }
  }

  /** A field that is named twice has the token of its last place. */
  lemma {:induction false} LastOfRepeated<T>(keys: seq<string>, values: seq<T>, i: nat)
    requires i < |keys| && i < |values| && forall j :: i < j < |keys| && j < |values| ==> keys[j] != keys[i]
    ensures keys[i] in Zip(keys, values) && Zip(keys, values)[keys[i]] == values[i]
  {
    if i > 0 {
      LastOfRepeated(keys[1..], values[1..], i - 1);
    } else {
      LaterKeys(keys[1..], values[1..]);
    }
  }

  lemma {:induction false} LaterKeys<T>(keys: seq<string>, values: seq<T>)
    ensures forall key :: key in Zip(keys, values) ==> exists j :: 0 <= j < |keys| && j < |values| && keys[j] == key
  {
    if keys != [] && values != [] {
      LaterKeys(keys[1..], values[1..]);
      assert forall j :: 0 <= j < |keys| - 1 ==> keys[1..][j] == keys[j + 1];
    }
  }

  function LineOf(pos: nat, tokens: seq<string>, eol: string): string {
    Join([Decimal(pos)] + tokens) + eol
  }

  predicate Clean(tokens: seq<string>) {
    forall i :: 0 <= i < |tokens| ==> NoBar(tokens[i]) && NoEol(tokens[i])
  }

  /** A line without a number changes nothing; any other changes its own item and no other one, and fails, late,
      exactly when the position, counted from the end when it is 0 or less, names no item. */
  lemma PositionsNameItems(names: seq<string>, fields: seq<string>, items: map<int, Item>, line: string)
    ensures var (next, r) := Notify(names, fields, items, line);
            match ParseInt(Split(RStrip(line))[0])
            case None => next == items && r == ValueError
            case Some(pos) =>
              pos in next && next - {pos} == items - {pos}
              && (r == IndexError <==> pos > |names| || pos <= -|names|)
              && (r != IndexError ==> r == Ok(Event(pos, names[(pos - 1) % |names|], next[pos])))
  {
    hide ParseInt, Split, RStrip, DecodeAll, Zip;
    var parsed := ParseInt(Split(RStrip(line))[0]);
    if parsed.Some? && IndexOk(names, parsed.value - 1) {
      FromTheEnd(|names|, parsed.value - 1);
    }
  }

  lemma FromTheEnd(n: int, index: int)
    requires -n <= index < n
    ensures index % n == if index < 0 then n + index else index
  {
  }

  lemma {:induction false} JoinNoEol(tokens: seq<string>)
    requires |tokens| >= 1 && forall i :: 0 <= i < |tokens| ==> NoEol(tokens[i])
    ensures NoEol(Join(tokens))
  {
    if |tokens| > 1 { JoinNoEol(tokens[1..]); }
  }

  /** The line is cut back into its position and its tokens, whatever line end follows. */
  lemma LineIsCut(pos: nat, tokens: seq<string>, eol: string)
    requires Clean(tokens) && IsEol(eol)
    ensures var parts := Split(RStrip(LineOf(pos, tokens, eol)));
            ParseInt(parts[0]) == Some(pos) && parts[1..] == tokens
  {
    var parts := [Decimal(pos)] + tokens;
    ParseDecimal(pos);
    JoinNoEol(parts);
    RStripRemovesEol(Join(parts), eol);
    SplitInvertsJoin(parts);
  }

  /** Every token says the value of its row to a receiver that holds `last`. */
  predicate SaysRow(fields: seq<string>, last: Item, tokens: seq<string>, row: seq<Field>)
    requires |tokens| == |fields| == |row|
  {
    forall i :: 0 <= i < |fields| ==> Says(tokens[i], Get(last, fields[i]), row[i])
  }

  lemma DecodeAllAt(fields: seq<string>, tokens: seq<string>, current: Item, i: nat)
    requires Distinct(fields) && i < |fields|
    ensures var r := DecodeAll(Zip(fields, tokens), current);
            && (fields[i] in r <==> i < |tokens|)
            && (i < |tokens| ==> r[fields[i]] == Decode(tokens[i], Get(current, fields[i])))
  {
    ZipAt(fields, tokens, i);
  }

  /** The tokens decode to the row exactly when each of them says its value. */
  lemma RowDecodedIff(fields: seq<string>, current: Item, tokens: seq<string>, row: seq<Field>)
    requires Distinct(fields) && |tokens| == |fields| == |row|
    ensures DecodeAll(Zip(fields, tokens), current) == Zip(fields, row) <==> SaysRow(fields, current, tokens, row)
  {
    hide Zip, Decode, Says, Get, Distinct;
    var r := DecodeAll(Zip(fields, tokens), current);
    forall i | 0 <= i < |fields|
      ensures fields[i] in r && fields[i] in Zip(fields, row) && Zip(fields, row)[fields[i]] == row[i]
      ensures r[fields[i]] == row[i] <==> Says(tokens[i], Get(current, fields[i]), row[i])
    {
      DecodeAllAt(fields, tokens, current, i);
      ZipAt(fields, row, i);
      DecodesIff(tokens[i], Get(current, fields[i]), row[i]);
    }
    ZipKeys(fields, tokens);
    ZipKeys(fields, row);
    assert r.Keys == Zip(fields, row).Keys;
  }

  /** A line with fewer tokens than fields: the fields it leaves out are forgotten, whatever they
      held, and those it has are decoded. */
  lemma ShortLineForgets(names: seq<string>, fields: seq<string>, items: map<int, Item>, pos: nat,
                         tokens: seq<string>, eol: string, i: nat)
    requires Distinct(fields) && i < |fields| && Clean(tokens) && IsEol(eol)
    ensures var item := ItemAt(Notify(names, fields, items, LineOf(pos, tokens, eol)).0, pos);
            Get(item, fields[i])
            == if i < |tokens| then Decode(tokens[i], Get(ItemAt(items, pos), fields[i])) else Nothing
  {
    LineIsCut(pos, tokens, eol);
    DecodeAllAt(fields, tokens, ItemAt(items, pos), i);
  }

  // ---- Runs ----

  datatype Update = Update(pos: nat, row: seq<Field>, tokens: seq<string>, eol: string)

  /** The update is a whole row of an existing item, on one well-formed line. */
  predicate WellFormed(names: seq<string>, fields: seq<string>, u: Update) {
    && 1 <= u.pos <= |names| && |u.row| == |u.tokens| == |fields|
    && Clean(u.tokens) && IsEol(u.eol)
  }

  /** Each update encodes its row against the last row sent for the same position. */
  predicate Encodes(fields: seq<string>, sent: map<int, Item>, updates: seq<Update>)
    requires forall u :: u in updates ==> |u.row| == |u.tokens| == |fields|
    decreases |updates|
  {
    updates == []
    || (&& SaysRow(fields, ItemAt(sent, updates[0].pos), updates[0].tokens, updates[0].row)
        && Encodes(fields, sent[updates[0].pos := Zip(fields, updates[0].row)], updates[1..]))
  }

  function EventOf(names: seq<string>, fields: seq<string>, u: Update): Event
    requires WellFormed(names, fields, u)
  {
    Event(u.pos, names[u.pos - 1], Zip(fields, u.row))
  }

  function Lines(updates: seq<Update>): seq<string> {
    seq(|updates|, i requires 0 <= i < |updates| =>
      LineOf(updates[i].pos, updates[i].tokens, updates[i].eol))
  }

  /** The event a listener should see for each update. */
  function Expected(names: seq<string>, fields: seq<string>, updates: seq<Update>): seq<Result>
    requires forall u :: u in updates ==> WellFormed(names, fields, u)
  {
    seq(|updates|, i requires 0 <= i < |updates| =>
      assert updates[i] in updates; Ok(EventOf(names, fields, updates[i])))
  }

  lemma UpdateIsSeen(names: seq<string>, fields: seq<string>, items: map<int, Item>, u: Update)
    requires Distinct(fields) && WellFormed(names, fields, u)
    ensures var (next, result) := Notify(names, fields, items, LineOf(u.pos, u.tokens, u.eol));
            && result.Ok? && result.event.pos == u.pos && result.event.name == names[u.pos - 1]
            && next == items[u.pos := result.event.values]
            && (result.event.values == Zip(fields, u.row) <==> SaysRow(fields, ItemAt(items, u.pos), u.tokens, u.row))
  {
    hide Split, RStrip, ParseInt, Zip, Decode, DecodeAll, SaysRow, LineOf;
    LineIsCut(u.pos, u.tokens, u.eol);
    RowDecodedIff(fields, ItemAt(items, u.pos), u.tokens, u.row);
  }

  /** Lossless decoding: over any run, every listener event is the row that was sent exactly when
      every update was encoded against the last row sent for its item. */
  lemma {:induction false} DecodingIsLosslessIff(names: seq<string>, fields: seq<string>, sent: map<int, Item>,
                                                 updates: seq<Update>)
    requires Distinct(fields)
    requires forall u :: u in updates ==> WellFormed(names, fields, u)
    ensures NotifyAll(names, fields, sent, Lines(updates)).1 == Expected(names, fields, updates)
            <==> Encodes(fields, sent, updates)
    decreases |updates|
  {
    hide Notify, SaysRow, Zip, LineOf, ItemAt, Distinct;
    var lines, expected := Lines(updates), Expected(names, fields, updates);
    if updates != [] {
      var u := updates[0];
      UpdateIsSeen(names, fields, sent, u);
      var (next, result) := Notify(names, fields, sent, lines[0]);
      assert lines[1..] == Lines(updates[1..]);
      assert expected[1..] == Expected(names, fields, updates[1..]);
      assert expected[0] == Ok(EventOf(names, fields, u));
      var results := NotifyAll(names, fields, next, lines[1..]).1;
      assert ([result] + results)[0] == result && ([result] + results)[1..] == results;
      assert [expected[0]] + expected[1..] == expected;
      if result == expected[0] {
        DecodingIsLosslessIff(names, fields, next, updates[1..]);
      }
    }
  }

  /** A sender can always send a row whole: each value has a token that does not depend on what the
      receiver holds, and that token is clean when the value is. */
  function Whole(value: Field): (token: string)
    ensures forall last: Field :: Decode(token, last) == value
    ensures value.Text? && NoBar(value.text) && NoEol(value.text) ==> NoBar(token) && NoEol(token)
  {
    match value
    case Nothing => "#"
    case Text(text) =>
      if text == "" then "$" else if text[0] == '#' || text[0] == '$' then "$" + text else text
  }
}
