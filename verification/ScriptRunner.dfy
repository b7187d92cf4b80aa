/** autox's script runner: it inverts the X server's keyboard mapping and compiles text to key
    events.  Replaying the events on a keyboard with that mapping gives the text its meaning. */
module ScriptRunners {
  import opened Options
  import opened Sequences

  type KeySym = nat
  type KeyCode = nat

  const NO_SYMBOL: KeySym := 0
  const XK_SHIFT_L: KeySym := 0xffe1
  const XK_SHIFT_R: KeySym := 0xffe2
  const XK_BACKSLASH: KeySym := 0x5c

  // ----- The server's keyboard mapping

  /** What XGetKeyboardMapping returns: for every keycode from minKeycode on, a row of
      keysymsPerKeycode keysyms.  The protocol keeps keycodes between 8 and 255. */
  datatype Mapping = Mapping(minKeycode: KeyCode, keysymsPerKeycode: nat, rows: seq<seq<KeySym>>) {

    ghost predicate Valid() {
      && 8 <= minKeycode && minKeycode + |rows| <= 256
      && keysymsPerKeycode >= 1
      && forall i | 0 <= i < |rows| :: |rows[i]| == keysymsPerKeycode
    }

    /** The keysym in a column of a row; columns that the server does not send are empty. */
    function At(i: nat, column: nat): KeySym
      requires Valid() && i < |rows|
    {
      if column < keysymsPerKeycode then rows[i][column] else NO_SYMBOL
    }

    /** The first of the first n rows that has the keysym in a column. */
    function FirstRow(column: nat, n: nat, s: KeySym): (r: Option<nat>)
      requires Valid() && n <= |rows|
      ensures r.Some? ==> r.value < n && At(r.value, column) == s
                          && forall i | 0 <= i < r.value :: At(i, column) != s
      ensures r.None? ==> forall i | 0 <= i < n :: At(i, column) != s
    {
      if n == 0 then None
      else if FirstRow(column, n - 1, s).Some? then FirstRow(column, n - 1, s)
      else if At(n - 1, column) == s then Some(n - 1)
      else None
    }
  }

  /** How to type a keysym: a keycode, and whether Shift has to be held. */
  type Table = map<KeySym, (KeyCode, bool)>

  /** The best way to type a keysym, given n0 rows of the first column and n1 of the second: the
      first keycode that needs no Shift, or else the first that does. */
  function BestWay(m: Mapping, n0: nat, n1: nat, s: KeySym): Option<(KeyCode, bool)>
    requires m.Valid() && n0 <= |m.rows| && n1 <= |m.rows|
  {
    if s == NO_SYMBOL then None
    else
      match m.FirstRow(0, n0, s)
      case Some(i) => Some((m.minKeycode + i, false))
      case None =>
        match m.FirstRow(1, n1, s)
        case Some(i) => Some((m.minKeycode + i, true))
        case None => None
  }

  ghost predicate TableIs(m: Mapping, n0: nat, n1: nat, table: Table)
    requires m.Valid() && n0 <= |m.rows| && n1 <= |m.rows|
  {
    forall s: KeySym :: EntryIs(m, n0, n1, table, s)
  }

  ghost predicate EntryIs(m: Mapping, n0: nat, n1: nat, table: Table, s: KeySym)
    requires m.Valid() && n0 <= |m.rows| && n1 <= |m.rows|
  {
    && (s in table <==> BestWay(m, n0, n1, s).Some?)
    && (s in table ==> table[s] == BestWay(m, n0, n1, s).value)
  }

  /** Reading a keysym in column 0 or 1 of row i: it is noted unless a way to type it is known
      that this one does not improve on. */
  function Noted(table: Table, s: KeySym, key: KeyCode, column: nat): Table {
    if s == NO_SYMBOL || (s in table && (!table[s].1 || column != 0)) then table
    else table[s := (key, column == 1)]
  }

  /** How the best way to type a keysym changes when one more keysym is read. */
  lemma BestWayStep(m: Mapping, i: nat, column: nat, s: KeySym)
    requires m.Valid() && i < |m.rows| && column < 2
    ensures var before := BestWay(m, i + column, i, s);
            BestWay(m, i + 1, i + column, s)
            == if s == m.At(i, column) && s != NO_SYMBOL && (before.Some? ==> before.value.1 && column == 0)
               then Some((m.minKeycode + i, column == 1)) else before
  {
  }

  lemma ColumnRead(m: Mapping, i: nat, column: nat, table: Table)
    requires m.Valid() && i < |m.rows| && column < 2
    requires TableIs(m, i + column, i, table)
    ensures TableIs(m, i + 1, i + column, Noted(table, m.At(i, column), m.minKeycode + i, column))
  {
    hide BestWay;
    var n0, n1, after := i + 1, i + column, Noted(table, m.At(i, column), m.minKeycode + i, column);
    forall s: KeySym
      ensures EntryIs(m, n0, n1, after, s)
    {
      assert EntryIs(m, i + column, i, table, s);
      assert EntryIs(m, i + column, i, table, m.At(i, column));
      BestWayStep(m, i, column, s);
      NoEntryForNoSymbol(m, i + column, i);
    }
  }

  lemma NoEntryForNoSymbol(m: Mapping, n0: nat, n1: nat)
    requires m.Valid() && n0 <= |m.rows| && n1 <= |m.rows|
    ensures BestWay(m, n0, n1, NO_SYMBOL).None?
  {
  }

  lemma NothingRead(m: Mapping)
    requires m.Valid()
    ensures TableIs(m, 0, 0, map[])
  {
    assert forall s: KeySym :: EntryIs(m, 0, 0, map[], s);
  }

  /** The table is the inverse of the first two columns. */
  ghost predicate Inverts(m: Mapping, table: Table)
    requires m.Valid()
  {
    TableIs(m, |m.rows|, |m.rows|, table)
  }

  /** An entry names a key that has the keysym in the right column, and asks for Shift only if
      no key has the keysym unshifted; a keysym without an entry is on no key. */
  lemma InverseMeaning(m: Mapping, table: Table, s: KeySym)
    requires m.Valid() && Inverts(m, table)
    ensures s in table ==>
              && s != NO_SYMBOL
              && m.minKeycode <= table[s].0 < m.minKeycode + |m.rows|
              && m.At(table[s].0 - m.minKeycode, if table[s].1 then 1 else 0) == s
              && (table[s].1 ==> forall i | 0 <= i < |m.rows| :: m.At(i, 0) != s)
              && var column := if table[s].1 then 1 else 0;
              forall i | 0 <= i < table[s].0 - m.minKeycode :: m.At(i, column) != s
    ensures s !in table && s != NO_SYMBOL ==>
              forall i | 0 <= i < |m.rows| :: m.At(i, 0) != s && m.At(i, 1) != s
  {
    assert EntryIs(m, |m.rows|, |m.rows|, table, s);
  }

  // ----- Text

  /** Keysyms of the characters that are not letters or digits. */
  const CHARS_TO_KEYSYMS: map<char, KeySym> :=
    map[' ' := 0x20, '\n' := 0xff0d, '\t' := 0xff09, '~' := 0x7e, '!' := 0x21, '@' := 0x40, '#' := 0x23,
        '$' := 0x24, '%' := 0x25, '^' := 0x5e, '&' := 0x26, '*' := 0x2a, '(' := 0x28, ')' := 0x29,
        '-' := 0x2d, '_' := 0x5f, '+' := 0x2b, '=' := 0x3d, '{' := 0x7b, '[' := 0x5b, '}' := 0x7d,
        ']' := 0x5d, '|' := 0x7c, ':' := 0x3a, ';' := 0x3b, '\"' := 0x22, '\'' := 0x27, ',' := 0x2c,
        '<' := 0x3c, '.' := 0x2e, '>' := 0x3e, '/' := 0x2f, '?' := 0x3f]

  predicate IsAlnum(c: char) {
    '0' <= c <= '9' || 'A' <= c <= 'Z' || 'a' <= c <= 'z'
  }

  lemma TableHas(c: char)
    ensures c in CHARS_TO_KEYSYMS <==> c == '\n' || c == '\t' || (' ' <= c <= '~' && !IsAlnum(c) && c != '\\' && c != '`')
  {
  }

  lemma TableIsCodes(c: char)
    requires ' ' <= c <= '~' && c in CHARS_TO_KEYSYMS
    ensures CHARS_TO_KEYSYMS[c] == c as int
  {
  }

  /** XStringToKeysym, as a table of the names it knows. */
  function StringToKeysym(names: map<string, KeySym>, name: string): KeySym {
    if name in names then names[name] else NO_SYMBOL
  }

  /** For a letter or digit the source reports success even if the name is unknown, since it
      compares its out-pointer with NoSymbol; NoSymbol then has no keycode. */
  function ConvertCharToKeySym(names: map<string, KeySym>, c: char): Option<KeySym> {
    if IsAlnum(c) then Some(StringToKeysym(names, [c]))
    else if c in CHARS_TO_KEYSYMS then Some(CHARS_TO_KEYSYMS[c])
    else None
  }

  /** A letter or digit is a keysym's name; the keysym of any other printable character is its code,
      and two control characters have keys of their own.  Only a backquote has none, and a backslash
      by itself. */
  lemma KeysymsAreCodes(names: map<string, KeySym>, c: char)
    ensures var keysym := ConvertCharToKeySym(names, c);
            if '0' <= c <= '9' || 'A' <= c <= 'Z' || 'a' <= c <= 'z' then keysym == Some(StringToKeysym(names, [c]))
            else if c == '\n' then keysym == Some(0xff0d)
            else if c == '\t' then keysym == Some(0xff09)
            else if ' ' <= c <= '~' && c != '\\' && c != '`' then keysym == Some(c as int)
            else keysym.None?
    ensures XK_BACKSLASH == '\\' as int
  {
    TableHas(c);
    if ' ' <= c <= '~' && c in CHARS_TO_KEYSYMS {
      TableIsCodes(c);
    }
    ControlKeysyms();
  }

  lemma ControlKeysyms()
    ensures '\n' in CHARS_TO_KEYSYMS && CHARS_TO_KEYSYMS['\n'] == 0xff0d
    ensures '\t' in CHARS_TO_KEYSYMS && CHARS_TO_KEYSYMS['\t'] == 0xff09
  {
  }

  function FindChar(s: string, c: char, from: nat): (r: Option<nat>)
    requires from <= |s|
    ensures r.Some? ==> from <= r.value < |s| && s[r.value] == c && forall k | from <= k < r.value :: s[k] != c
    ensures r.None? ==> forall k | from <= k < |s| :: s[k] != c
    decreases |s| - from
  {
    if from == |s| then None else if s[from] == c then Some(from) else FindChar(s, c, from + 1)
  }

  /** The keysym of an escape and the number of characters it takes. */
  function ConvertEscapedStringToKeySym(names: map<string, KeySym>, s: string): (r: Option<(KeySym, nat)>)
    requires s != "" && s[0] == '\\'
    ensures r.Some? ==> 2 <= r.value.1 <= |s|
  {
    if |s| < 2 then None
    else if s[1] == '\\' then Some((XK_BACKSLASH, 2))
    else if s[1] != '(' then None
    else
      match FindChar(s, ')', 2)
      case None => None
      case Some(end) =>
        if end == 2 then None
        else
          var keysym := StringToKeysym(names, s[2..end]);
          if keysym == NO_SYMBOL then None else Some((keysym, end + 1))
  }

  /** What text begins with: nothing readable, or one keysym, so many characters long. */
  function First(names: map<string, KeySym>, text: string): (r: Option<(KeySym, nat)>)
    requires text != ""
    ensures r.Some? ==> 1 <= r.value.1 <= |text|
  {
    if text[0] == '\\' then ConvertEscapedStringToKeySym(names, text)
    else match ConvertCharToKeySym(names, text[0])
         case None => None
         case Some(keysym) => Some((keysym, 1))
  }

  /** The keysyms that the escaped text denotes, as the source reads them off. */
  function Scan(names: map<string, KeySym>, text: string): Option<seq<KeySym>> {
    if text == "" then Some([])
    else
      match First(names, text)
      case None => None
      case Some((keysym, n)) => Prepend([keysym], Scan(names, text[n..]))
  }

  function Prepend(ks: seq<KeySym>, rest: Option<seq<KeySym>>): Option<seq<KeySym>> {
    if rest.Some? then Some(ks + rest.value) else None
  }

  // ----- An independent reading of the same text

  datatype Token = Plain(c: char) | Backslash | Named(name: string)

  function Render(t: Token): string {
    match t
    case Plain(c) => [c]
    case Backslash => "\\\\"
    case Named(name) => "\\(" + name + ")"
  }

  function RenderAll(ts: seq<Token>): string {
    if ts == [] then "" else Render(ts[0]) + RenderAll(ts[1..])
  }

  /** What a token denotes, if anything. */
  function Denotes(names: map<string, KeySym>, t: Token): Option<KeySym> {
    match t
    case Plain(c) => ConvertCharToKeySym(names, c)
    case Backslash => Some(XK_BACKSLASH)
    case Named(name) =>
      var keysym := StringToKeysym(names, name);
      if keysym == NO_SYMBOL then None else Some(keysym)
  }

  predicate IsToken(t: Token) {
    match t
    case Plain(c) => c != '\\'
    case Backslash => true
    case Named(name) => name != "" && ')' !in name
  }

  predicate AreTokens(names: map<string, KeySym>, ts: seq<Token>, ks: seq<KeySym>) {
    && |ts| == |ks|
    && forall i | 0 <= i < |ts| :: IsToken(ts[i]) && Denotes(names, ts[i]) == Some(ks[i])
  }

  lemma FirstOfToken(names: map<string, KeySym>, t: Token, rest: string)
    requires IsToken(t)
    ensures var text := Render(t) + rest;
            && text[|Render(t)|..] == rest
            && First(names, text) == if Denotes(names, t).Some? then Some((Denotes(names, t).value, |Render(t)|)) else None
  {
    hide ConvertCharToKeySym;
    if t.Named? {
      NameFound(t.name, rest);
    }
  }

  /** The closing parenthesis of an escape. */
  lemma NameFound(name: string, rest: string)
    requires ')' !in name
    ensures var text := "\\(" + name + ")" + rest;
            FindChar(text, ')', 2) == Some(2 + |name|) && text[2..2 + |name|] == name && text[3 + |name|..] == rest
  {
    var text := "\\(" + name + ")" + rest;
    assert forall k | 2 <= k < 2 + |name| :: text[k] == name[k - 2];
    assert text[2 + |name|] == ')';
    hide *;
  }

  /** One token is read off the front of any text. */
  lemma ScanToken(names: map<string, KeySym>, t: Token, rest: string)
    requires IsToken(t)
    ensures Scan(names, Render(t) + rest)
         == if Denotes(names, t).Some? then Prepend([Denotes(names, t).value], Scan(names, rest)) else None
  {
    assert |Render(t)| > 0;
    hide First, Denotes, Prepend, Render;
    FirstOfToken(names, t, rest);
  }

  /** The text of tokens that denote keysyms is read as those keysyms. */
  lemma {:induction false} ScanInvertsRender(names: map<string, KeySym>, ts: seq<Token>, ks: seq<KeySym>)
    requires AreTokens(names, ts, ks)
    ensures Scan(names, RenderAll(ts)) == Some(ks)
  {
    if ts == [] {
      assert ks == [];
    } else {
      ScanInvertsRender(names, ts[1..], ks[1..]);
      ScanToken(names, ts[0], RenderAll(ts[1..]));
      assert ks == [ks[0]] + ks[1..];
    }
  }

  /** Whatever text is accepted is the text of tokens that denote what was read. */
  lemma {:induction false} ScanIsTokens(names: map<string, KeySym>, text: string) returns (ts: seq<Token>)
    requires Scan(names, text).Some?
    ensures RenderAll(ts) == text && AreTokens(names, ts, Scan(names, text).value)
    decreases |text|
  {
    if text == "" {
      return [];
    }
    var first, n := ScanFirst(names, text);
    var rest := ScanIsTokens(names, text[n..]);
    ts := [first] + rest;
    var ks := Scan(names, text).value;
    hide *;
    RenderFirst(ts);
    TokensPrepend(names, first, ks[0], rest, ks[1..]);
    assert ts[1..] == rest && [ks[0]] + ks[1..] == ks;
  }

  lemma RenderFirst(ts: seq<Token>)
    requires ts != []
    ensures RenderAll(ts) == Render(ts[0]) + RenderAll(ts[1..])
  {
  }

  lemma TokensPrepend(names: map<string, KeySym>, t: Token, k: KeySym, ts: seq<Token>, ks: seq<KeySym>)
    requires IsToken(t) && Denotes(names, t) == Some(k) && AreTokens(names, ts, ks)
    ensures AreTokens(names, [t] + ts, [k] + ks)
  {
    hide IsToken, Denotes;
  }

  /** The token that readable text begins with. */
  lemma FirstIsToken(names: map<string, KeySym>, text: string) returns (first: Token)
    requires text != "" && First(names, text).Some?
    ensures var (keysym, n) := First(names, text).value;
            && n == |Render(first)| && text == Render(first) + text[n..]
            && IsToken(first) && Denotes(names, first) == Some(keysym)
  {
    hide ConvertCharToKeySym;
    if text[0] != '\\' {
      first := Plain(text[0]);
    } else if text[1] == '\\' {
      first := Backslash;
    } else {
      var end := FindChar(text, ')', 2).value;
      first := Named(text[2..end]);
      assert forall k | 0 <= k < |text[2..end]| :: text[2..end][k] == text[2 + k];
    }
  }

  /** The token that accepted text begins with. */
  lemma ScanFirst(names: map<string, KeySym>, text: string) returns (first: Token, n: nat)
    requires text != "" && Scan(names, text).Some?
    ensures n == |Render(first)| && 0 < n <= |text| && text == Render(first) + text[n..] && IsToken(first)
    ensures var ks := Scan(names, text).value;
            && Scan(names, text[n..]).Some? && ks != [] && Denotes(names, first) == Some(ks[0])
            && ks[1..] == Scan(names, text[n..]).value
  {
    hide First, Denotes, Render, IsToken;
    first := FirstIsToken(names, text);
    n := First(names, text).value.1;
  }

  // ----- Key events, and the keyboard that receives them

  datatype KeyEvent = Press(key: KeyCode) | Release(key: KeyCode)

  /** The server's side: its mapping, the keys that act as Shift, and its case conversion. */
  datatype Keyboard = Keyboard(mapping: Mapping, shiftKeys: set<KeyCode>,
                               lower: KeySym -> KeySym, upper: KeySym -> KeySym) {

    /** The keysym of a key press, by section 5 of the X Window System Protocol: the second
        column with Shift; if it is empty the first stands for both, except that a letter then
        stands for its lower and upper case. */
    function Interpret(key: KeyCode, shift: bool): KeySym
      requires mapping.Valid() && mapping.minKeycode <= key < mapping.minKeycode + |mapping.rows|
    {
      var k1, k2 := mapping.At(key - mapping.minKeycode, 0), mapping.At(key - mapping.minKeycode, 1);
      if k2 != NO_SYMBOL then (if shift then k2 else k1)
      else if lower(k1) != upper(k1) then (if shift then upper(k1) else lower(k1))
      else k1
    }

    predicate HasKey(key: KeyCode) {
      mapping.minKeycode <= key < mapping.minKeycode + |mapping.rows|
    }

    function After(held: set<KeyCode>, e: KeyEvent): set<KeyCode> {
      match e
      case Press(k) => held + {k}
      case Release(k) => held - {k}
    }

    function HeldAfter(held: set<KeyCode>, events: seq<KeyEvent>): set<KeyCode>
      decreases |events|
    {
      if events == [] then held else HeldAfter(After(held, events[0]), events[1..])
    }

    /** The keysyms that the events type; a Shift key types none. */
    function Types(held: set<KeyCode>, events: seq<KeyEvent>): seq<KeySym>
      requires mapping.Valid() && forall i | 0 <= i < |events| :: HasKey(events[i].key)
      decreases |events|
    {
      if events == [] then []
      else
        var e := events[0];
        assert HasKey(e.key);
        (if e.Press? && e.key !in shiftKeys then [Interpret(e.key, held * shiftKeys != {})] else [])
        + Types(After(held, e), events[1..])
    }
  }

  /** The events for one keysym. */
  function EventsFor(table: Table, shiftKey: KeyCode, s: KeySym): seq<KeyEvent>
    requires s in table
  {
    var key := table[s].0;
    if table[s].1 then [Press(shiftKey), Press(key), Release(key), Release(shiftKey)]
    else [Press(key), Release(key)]
  }

  /** Shift is held for as long as the key that needs it. */
  lemma ShiftOutlastsKey(kb: Keyboard, table: Table, shiftKey: KeyCode, s: KeySym, held: set<KeyCode>, n: nat)
    requires s in table && table[s].1 && table[s].0 !in held && table[s].0 != shiftKey
    requires n <= |EventsFor(table, shiftKey, s)|
    ensures var now := kb.HeldAfter(held, EventsFor(table, shiftKey, s)[..n]);
            table[s].0 in now ==> shiftKey in now
  {
    var es := EventsFor(table, shiftKey, s);
    for k := 0 to n
      invariant var now := kb.HeldAfter(held, es[..k]);
                && (k == 0 ==> now == held)
                && (1 <= k <= 3 ==> shiftKey in now)
                && (k <= 1 || 3 <= k ==> table[s].0 !in now)
    {
      assert es[..k + 1] == es[..k] + [es[k]];
      HeldSnoc(kb, held, es[..k], es[k]);
    }
  }

  lemma {:induction false} HeldSnoc(kb: Keyboard, held: set<KeyCode>, events: seq<KeyEvent>, e: KeyEvent)
    ensures kb.HeldAfter(held, events + [e]) == kb.After(kb.HeldAfter(held, events), e)
    decreases |events|
  {
    if events == [] {
      assert [] + [e] == [e];
    } else {
      HeldSnoc(kb, kb.After(held, events[0]), events[1..], e);
      assert (events + [e])[1..] == events[1..] + [e];
    }
  }

  ghost predicate AllIn(table: Table, ks: seq<KeySym>) {
    forall i | 0 <= i < |ks| :: ks[i] in table
  }

  function EventsForAll(table: Table, shiftKey: KeyCode, ks: seq<KeySym>): seq<KeyEvent>
    requires AllIn(table, ks)
  {
    if ks == [] then []
    else EventsForAll(table, shiftKey, ks[..|ks| - 1]) + EventsFor(table, shiftKey, ks[|ks| - 1])
  }

  /** A key whose only keysym is an upper-case letter types the lower-case letter without Shift. */
  predicate OnlyUpperCase(kb: Keyboard, table: Table, s: KeySym)
    requires kb.mapping.Valid() && s in table && kb.HasKey(table[s].0)
  {
    && !table[s].1
    && kb.mapping.At(table[s].0 - kb.mapping.minKeycode, 1) == NO_SYMBOL
    && kb.lower(s) != kb.upper(s) && kb.lower(s) != s
  }

  /** Something other than the keysym is typed: nothing at all by a key that acts as Shift, the
      lower-case letter by a key that has only the upper-case one. */
  ghost predicate Mistyped(kb: Keyboard, table: Table, s: KeySym)
    requires kb.mapping.Valid() && s in table && kb.HasKey(table[s].0)
  {
    table[s].0 in kb.shiftKeys || OnlyUpperCase(kb, table, s)
  }

  /** The key that types the keysym is a key of the keyboard. */
  ghost predicate Typable(kb: Keyboard, table: Table, s: KeySym) {
    s in table && kb.HasKey(table[s].0)
  }

  ghost predicate AllTypable(kb: Keyboard, table: Table, ks: seq<KeySym>) {
    forall i | 0 <= i < |ks| :: Typable(kb, table, ks[i])
  }

  lemma {:induction false} TypesConcat(kb: Keyboard, held: set<KeyCode>, a: seq<KeyEvent>, b: seq<KeyEvent>)
    requires kb.mapping.Valid()
    requires forall i | 0 <= i < |a| :: kb.HasKey(a[i].key)
    requires forall i | 0 <= i < |b| :: kb.HasKey(b[i].key)
    ensures kb.Types(held, a + b) == kb.Types(held, a) + kb.Types(kb.HeldAfter(held, a), b)
    ensures kb.HeldAfter(held, a + b) == kb.HeldAfter(kb.HeldAfter(held, a), b)
    decreases |a|
  {
    if a == [] {
      assert a + b == b;
    } else {
      assert (a + b)[1..] == a[1..] + b;
      TypesConcat(kb, kb.After(held, a[0]), a[1..], b);
    }
  }

  /** One keysym: that keysym is typed and nothing else, exactly if it is not mistyped; and nothing
      more is held. */
  lemma TypesOne(kb: Keyboard, table: Table, shiftKey: KeyCode, held: set<KeyCode>, s: KeySym)
    requires kb.mapping.Valid() && Inverts(kb.mapping, table)
    requires Typable(kb, table, s) && kb.HasKey(shiftKey) && shiftKey in kb.shiftKeys
    requires held * kb.shiftKeys == {}
    ensures var events := EventsFor(table, shiftKey, s);
            && (forall i | 0 <= i < |events| :: kb.HasKey(events[i].key))
            && |kb.Types(held, events)| <= 1
            && (kb.Types(held, events) == [s] <==> !Mistyped(kb, table, s))
            && kb.HeldAfter(held, events) <= held
  {
    var key := table[s].0;
    InverseMeaning(kb.mapping, table, s);
    var typed := kb.Interpret(key, table[s].1);
    assert typed == s <==> !OnlyUpperCase(kb, table, s);
    hide Inverts, OnlyUpperCase, Keyboard.Interpret, Keyboard.Types, Keyboard.HeldAfter;
    if key in kb.shiftKeys {
      TypesNothing(kb, held, shiftKey, key);
    } else if table[s].1 {
      TypesShifted(kb, held, shiftKey, key);
    } else {
      TypesPlain(kb, held, key);
    }
  }

  lemma TypesNothing(kb: Keyboard, held: set<KeyCode>, shiftKey: KeyCode, key: KeyCode)
    requires kb.mapping.Valid() && kb.HasKey(key) && key in kb.shiftKeys && kb.HasKey(shiftKey) && shiftKey in kb.shiftKeys
    ensures kb.Types(held, [Press(key), Release(key)]) == []
    ensures kb.HeldAfter(held, [Press(key), Release(key)]) <= held
    ensures kb.Types(held, [Press(shiftKey), Press(key), Release(key), Release(shiftKey)]) == []
    ensures kb.HeldAfter(held, [Press(shiftKey), Press(key), Release(key), Release(shiftKey)]) <= held
  {
    hide Keyboard.Interpret;
    PressAndReleaseTypeNothing(kb, held, key);
    var e0 := [Press(shiftKey), Press(key), Release(key), Release(shiftKey)];
    var e1, e2, e3 := [Press(key), Release(key), Release(shiftKey)], [Release(key), Release(shiftKey)], [Release(shiftKey)];
    assert e0[1..] == e1 && e1[1..] == e2 && e2[1..] == e3 && e3[1..] == [];
    var h1 := held + {shiftKey};
    var h2 := h1 + {key};
    var h3 := h2 - {key};
    assert kb.Types(h3, e3) == [] + kb.Types(h3 - {shiftKey}, []);
    assert kb.Types(h2, e2) == [] + kb.Types(h3, e3);
    assert kb.Types(h1, e1) == [] + kb.Types(h2, e2);
    assert kb.HeldAfter(held, e0) == kb.HeldAfter(h2, e2) == kb.HeldAfter(h3, e3) == h3 - {shiftKey};
  }

  lemma PressAndReleaseTypeNothing(kb: Keyboard, held: set<KeyCode>, key: KeyCode)
    requires kb.mapping.Valid() && kb.HasKey(key) && key in kb.shiftKeys
    ensures kb.Types(held, [Press(key), Release(key)]) == []
    ensures kb.HeldAfter(held, [Press(key), Release(key)]) <= held
  {
    var h1 := held + {key};
    assert [Press(key), Release(key)][1..] == [Release(key)] && [Release(key)][1..] == [];
    assert kb.Types(h1, [Release(key)]) == [];
    assert kb.HeldAfter(h1, [Release(key)]) == kb.HeldAfter(h1 - {key}, []);
  }

  lemma TypesPlain(kb: Keyboard, held: set<KeyCode>, key: KeyCode)
    requires kb.mapping.Valid() && kb.HasKey(key) && key !in kb.shiftKeys && held * kb.shiftKeys == {}
    ensures kb.Types(held, [Press(key), Release(key)]) == [kb.Interpret(key, false)]
    ensures kb.HeldAfter(held, [Press(key), Release(key)]) <= held
  {
    var h1 := held + {key};
    assert [Press(key), Release(key)][1..] == [Release(key)] && [Release(key)][1..] == [];
    assert kb.Types(h1, [Release(key)]) == [];
    assert kb.HeldAfter(h1, [Release(key)]) == kb.HeldAfter(h1 - {key}, []);
  }

  lemma TypesShifted(kb: Keyboard, held: set<KeyCode>, shiftKey: KeyCode, key: KeyCode)
    requires kb.mapping.Valid() && kb.HasKey(key) && key !in kb.shiftKeys && held * kb.shiftKeys == {}
    requires kb.HasKey(shiftKey) && shiftKey in kb.shiftKeys
    ensures kb.Types(held, [Press(shiftKey), Press(key), Release(key), Release(shiftKey)]) == [kb.Interpret(key, true)]
    ensures kb.HeldAfter(held, [Press(shiftKey), Press(key), Release(key), Release(shiftKey)]) <= held
  {
    var e0 := [Press(shiftKey), Press(key), Release(key), Release(shiftKey)];
    var e1, e2, e3 := [Press(key), Release(key), Release(shiftKey)], [Release(key), Release(shiftKey)], [Release(shiftKey)];
    assert e0[1..] == e1 && e1[1..] == e2 && e2[1..] == e3 && e3[1..] == [];
    var h1 := held + {shiftKey};
    var h2 := h1 + {key};
    var h3 := h2 - {key};
    assert shiftKey in h1 * kb.shiftKeys;
    assert kb.Types(h3, e3) == [] + kb.Types(h3 - {shiftKey}, []);
    assert kb.Types(h2, e2) == [] + kb.Types(h3, e3);
    assert kb.Types(h1, e1) == [kb.Interpret(key, true)] + kb.Types(h2, e2);
    assert kb.HeldAfter(held, e0) == kb.HeldAfter(h2, e2) == kb.HeldAfter(h3, e3) == h3 - {shiftKey};
  }

  /** No more keysyms are typed than were meant, and they are the same if none is mistyped. */
  ghost predicate TypedAsMeant(kb: Keyboard, table: Table, typed: seq<KeySym>, ks: seq<KeySym>)
    requires kb.mapping.Valid() && AllTypable(kb, table, ks)
  {
    && |typed| <= |ks|
    && (typed == ks <==> forall i | 0 <= i < |ks| :: !Mistyped(kb, table, ks[i]))
  }

  lemma {:induction false} EventsTypeAsMeant(kb: Keyboard, table: Table, shiftKey: KeyCode, held: set<KeyCode>, ks: seq<KeySym>)
    requires kb.mapping.Valid() && Inverts(kb.mapping, table)
    requires AllTypable(kb, table, ks)
    requires kb.HasKey(shiftKey) && shiftKey in kb.shiftKeys
    requires held * kb.shiftKeys == {}
    ensures var events := EventsForAll(table, shiftKey, ks);
            && (forall i | 0 <= i < |events| :: kb.HasKey(events[i].key))
            && TypedAsMeant(kb, table, kb.Types(held, events), ks)
            && kb.HeldAfter(held, events) <= held
  {
    if ks != [] {
      var init, s := ks[..|ks| - 1], ks[|ks| - 1];
      assert AllTypable(kb, table, init) && Typable(kb, table, s);
      hide *;
      EventsTypeAsMeant(kb, table, shiftKey, held, init);
      EventsForLast(table, shiftKey, ks);
      var before, events := EventsForAll(table, shiftKey, init), EventsFor(table, shiftKey, s);
      var heldBefore := kb.HeldAfter(held, before);
      TypesOne(kb, table, shiftKey, heldBefore, s);
      TypesConcat(kb, held, before, events);
      AsMeantOneMore(kb, table, kb.Types(held, before), kb.Types(heldBefore, events), ks);
    }
  }

  lemma EventsForLast(table: Table, shiftKey: KeyCode, ks: seq<KeySym>)
    requires ks != [] && AllIn(table, ks)
    ensures AllIn(table, ks[..|ks| - 1]) && ks[|ks| - 1] in table
    ensures EventsForAll(table, shiftKey, ks)
         == EventsForAll(table, shiftKey, ks[..|ks| - 1]) + EventsFor(table, shiftKey, ks[|ks| - 1])
  {
  }

  lemma AsMeantOneMore(kb: Keyboard, table: Table, typed: seq<KeySym>, one: seq<KeySym>, ks: seq<KeySym>)
    requires kb.mapping.Valid() && ks != [] && AllTypable(kb, table, ks) && AllTypable(kb, table, ks[..|ks| - 1])
    requires TypedAsMeant(kb, table, typed, ks[..|ks| - 1])
    requires |one| <= 1 && (one == [ks[|ks| - 1]] <==> !Mistyped(kb, table, ks[|ks| - 1]))
    ensures TypedAsMeant(kb, table, typed + one, ks)
  {
    hide Mistyped;
    var init, last := ks[..|ks| - 1], ks[|ks| - 1];
    assert ks == init + [last];
    if typed + one == ks {
      assert |typed| == |init| && |one| == 1;
      assert typed == (typed + one)[..|init|] == init;
      assert one[0] == (typed + one)[|init|] == last;
    }
    assert (forall i | 0 <= i < |ks| :: !Mistyped(kb, table, ks[i]))
        <==> (forall i | 0 <= i < |init| :: !Mistyped(kb, table, init[i])) && !Mistyped(kb, table, last);
  }

  /** Compilation preserves meaning: replayed on the keyboard, the events type exactly the
      keysyms, in order, if and only if none of them is mistyped; and no key is left held. */
  lemma CompiledTextTypesItself(kb: Keyboard, table: Table, shiftKey: KeyCode, ks: seq<KeySym>)
    requires kb.mapping.Valid() && Inverts(kb.mapping, table)
    requires AllTypable(kb, table, ks)
    requires kb.HasKey(shiftKey) && shiftKey in kb.shiftKeys
    ensures var events := EventsForAll(table, shiftKey, ks);
            && (forall i | 0 <= i < |events| :: kb.HasKey(events[i].key))
            && (kb.Types({}, events) == ks <==> forall i | 0 <= i < |ks| :: !Mistyped(kb, table, ks[i]))
            && kb.HeldAfter({}, events) == {}
  {
    hide Inverts, Mistyped, Typable, Keyboard.Types, Keyboard.HeldAfter, EventsForAll;
    EventsTypeAsMeant(kb, table, shiftKey, {}, ks);
  }

  // ----- Hotkeys

  /** The keys of a hotkey are pressed in order and then released in reverse order. */
  function Presses(keys: seq<KeyCode>): (r: seq<KeyEvent>)
    ensures |r| == |keys|
  {
    if keys == [] then [] else Presses(keys[..|keys| - 1]) + [Press(keys[|keys| - 1])]
  }

  function ReleasesReversed(keys: seq<KeyCode>): seq<KeyEvent> {
    if keys == [] then [] else [Release(keys[|keys| - 1])] + ReleasesReversed(keys[..|keys| - 1])
  }

  /** The short names for full keysym names. */
  function Unabbreviated(part: string): string {
    if part == "Ctrl" then "Control_L"
    else if part == "Alt" then "Alt_L"
    else if part == "Shift" then "Shift_L"
    else part
  }

  function PartKeysym(names: map<string, KeySym>, part: string): KeySym {
    StringToKeysym(names, Unabbreviated(part))
  }

  /** The three short names stand for the left modifier keys, and other names for themselves. */
  lemma ShortNames(names: map<string, KeySym>, part: string)
    ensures PartKeysym(names, "Ctrl") == StringToKeysym(names, "Control_L")
    ensures PartKeysym(names, "Alt") == StringToKeysym(names, "Alt_L")
    ensures PartKeysym(names, "Shift") == StringToKeysym(names, "Shift_L")
    ensures part != "Ctrl" && part != "Alt" && part != "Shift" ==> PartKeysym(names, part) == StringToKeysym(names, part)
  {
    assert "Ctrl"[0] != "Alt"[0] && "Ctrl"[0] != "Shift"[0] && "Alt"[0] != "Shift"[0];
  }

  predicate IsShift(s: KeySym) {
    s == XK_SHIFT_L || s == XK_SHIFT_R
  }

  predicate IsUpperCaseLetter(name: string) {
    |name| == 1 && 'A' <= name[0] <= 'Z'
  }

  /** Part i of a hotkey has a key, and if typing it takes Shift then a Shift key comes first, or
      it is just an upper-case letter. */
  ghost predicate PartAllowed(names: map<string, KeySym>, table: Table, parts: seq<string>, i: nat)
    requires i < |parts|
  {
    var s := PartKeysym(names, parts[i]);
    && s != NO_SYMBOL && s in table
    && (table[s].1 ==>
          || (|parts[i]| == 1 && 'A' <= parts[i][0] <= 'Z')
          || exists k | 0 <= k <= i :: PartKeysym(names, parts[k]) == XK_SHIFT_L || PartKeysym(names, parts[k]) == XK_SHIFT_R)
  }

  lemma LettersAreTheirNames(part: string)
    ensures IsUpperCaseLetter(Unabbreviated(part)) <==> |part| == 1 && 'A' <= part[0] <= 'Z'
  {
  }

  lemma PartKeysymIs(names: map<string, KeySym>, part: string)
    ensures PartKeysym(names, part) == StringToKeysym(names, Unabbreviated(part))
  {
  }

  lemma PartAllowedIs(names: map<string, KeySym>, table: Table, parts: seq<string>, i: nat)
    requires i < |parts|
    ensures var s := PartKeysym(names, parts[i]);
            PartAllowed(names, table, parts, i)
            <==> && s != NO_SYMBOL && s in table
                 && (!table[s].1 || IsUpperCaseLetter(Unabbreviated(parts[i]))
                     || exists k | 0 <= k <= i :: IsShift(PartKeysym(names, parts[k])))
  {
    LettersAreTheirNames(parts[i]);
    hide PartKeysym, Unabbreviated, IsUpperCaseLetter;
    assert (exists k | 0 <= k <= i :: IsShift(PartKeysym(names, parts[k])))
      <==> exists k | 0 <= k <= i :: PartKeysym(names, parts[k]) == XK_SHIFT_L || PartKeysym(names, parts[k]) == XK_SHIFT_R;
  }

  ghost predicate PartsAllowed(names: map<string, KeySym>, table: Table, parts: seq<string>, n: nat)
    requires n <= |parts|
  {
    forall i | 0 <= i < n :: PartAllowed(names, table, parts, i)
  }

  ghost predicate KeysOf(names: map<string, KeySym>, table: Table, parts: seq<string>, keys: seq<KeyCode>)
    requires |keys| <= |parts|
  {
    forall i | 0 <= i < |keys| ::
      PartKeysym(names, parts[i]) in table && keys[i] == table[PartKeysym(names, parts[i])].0
  }

  lemma {:induction false} HeldAfterPresses(kb: Keyboard, keys: seq<KeyCode>)
    requires kb.mapping.Valid() && forall k | k in keys :: kb.HasKey(k)
    ensures forall i | 0 <= i < |Presses(keys)| :: kb.HasKey(Presses(keys)[i].key)
    ensures kb.HeldAfter({}, Presses(keys)) == Elements(keys)
  {
    if keys != [] {
      var init, k := keys[..|keys| - 1], keys[|keys| - 1];
      assert keys == init + [k];
      HeldAfterPresses(kb, init);
      TypesConcat(kb, {}, Presses(init), [Press(k)]);
      assert kb.HeldAfter(Elements(init), [Press(k)]) == Elements(init) + {k} by {
        assert [Press(k)][1..] == [];
      }
    }
  }

  lemma {:induction false} NothingHeldAfterReleases(kb: Keyboard, held: set<KeyCode>, keys: seq<KeyCode>)
    requires kb.mapping.Valid() && held <= Elements(keys)
    ensures kb.HeldAfter(held, ReleasesReversed(keys)) == {}
  {
    if keys != [] {
      var init, k := keys[..|keys| - 1], keys[|keys| - 1];
      assert keys == init + [k];
      NothingHeldAfterReleases(kb, held - {k}, init);
      assert ReleasesReversed(keys)[1..] == ReleasesReversed(init);
    }
  }

  lemma {:induction false} ReleasedAt(keys: seq<KeyCode>, i: nat)
    requires i < |keys|
    ensures |ReleasesReversed(keys)| == |keys| && ReleasesReversed(keys)[|keys| - 1 - i] == Release(keys[i])
  {
    if i < |keys| - 1 {
      ReleasedAt(keys[..|keys| - 1], i);
    } else if i > 0 {
      ReleasedAt(keys[..i], i - 1);
    }
  }

  /** When a hotkey's key is pressed, exactly the keys before it are held; those pressed after it
      are released before it; and at the end none is held. */
  lemma HotkeysNest(kb: Keyboard, keys: seq<KeyCode>, i: nat)
    requires kb.mapping.Valid() && i < |keys| && forall k | k in keys :: kb.HasKey(k)
    ensures i < |Presses(keys)| && Presses(keys)[i] == Press(keys[i])
    ensures |ReleasesReversed(keys)| == |keys| && ReleasesReversed(keys)[|keys| - 1 - i] == Release(keys[i])
    ensures kb.HeldAfter({}, Presses(keys)[..i]) == Elements(keys[..i])
    ensures kb.HeldAfter({}, Presses(keys) + ReleasesReversed(keys)) == {}
  {
    PressesPrefix(keys, i);
    ReleasedAt(keys, i);
    HeldAfterPresses(kb, keys[..i]);
    HeldAfterPresses(kb, keys);
    ReleasesHaveKeys(kb, keys);
    TypesConcat(kb, {}, Presses(keys), ReleasesReversed(keys));
    NothingHeldAfterReleases(kb, Elements(keys), keys);
  }

  lemma {:induction false} PressesPrefix(keys: seq<KeyCode>, i: nat)
    requires i < |keys|
    ensures i < |Presses(keys)| == |keys| && Presses(keys)[i] == Press(keys[i])
    ensures Presses(keys)[..i] == Presses(keys[..i])
  {
    var init := keys[..|keys| - 1];
    if i < |init| {
      PressesPrefix(init, i);
      assert init[..i] == keys[..i];
      assert Presses(keys)[..i] == Presses(init)[..i];
    } else if init != [] {
      PressesPrefix(init, |init| - 1);
    }
  }

  lemma {:induction false} ReleasesHaveKeys(kb: Keyboard, keys: seq<KeyCode>)
    requires forall k | k in keys :: kb.HasKey(k)
    ensures forall i | 0 <= i < |ReleasesReversed(keys)| :: kb.HasKey(ReleasesReversed(keys)[i].key)
  {
    if keys != [] {
      ReleasesHaveKeys(kb, keys[..|keys| - 1]);
    }
  }

  /** The rule about Shift is there so that a hotkey means the keysyms that it names: a part that
      takes Shift, and is no upper-case letter, is read by the server as just that keysym. */
  lemma HotkeyPartIsRead(kb: Keyboard, names: map<string, KeySym>, table: Table, parts: seq<string>, keys: seq<KeyCode>, i: nat)
    requires kb.mapping.Valid() && Inverts(kb.mapping, table)
    requires |keys| == |parts| && KeysOf(names, table, parts, keys)
    requires PartsAllowed(names, table, parts, |parts|) && i < |parts|
    requires forall s: KeySym | IsShift(s) && s in table :: table[s].0 in kb.shiftKeys && !table[s].1
    requires table[PartKeysym(names, parts[i])].1 && !IsUpperCaseLetter(Unabbreviated(parts[i]))
    ensures kb.HeldAfter({}, Presses(keys)[..i]) * kb.shiftKeys != {}
    ensures kb.HasKey(keys[i]) && kb.Interpret(keys[i], true) == PartKeysym(names, parts[i])
  {
    InverseMeaning(kb.mapping, table, PartKeysym(names, parts[i]));
    assert kb.HasKey(keys[i]) && kb.Interpret(keys[i], true) == PartKeysym(names, parts[i]);
    assert PartAllowed(names, table, parts, i);
    PartAllowedIs(names, table, parts, i);
    hide PartAllowed, IsUpperCaseLetter, IsShift, Inverts, Keyboard.Interpret, PartsAllowed, Presses, PartKeysym, Keyboard.HeldAfter, Unabbreviated;
    forall k | k in keys ensures kb.HasKey(k) {
      var j :| 0 <= j < |keys| && keys[j] == k;
      InverseMeaning(kb.mapping, table, PartKeysym(names, parts[j]));
    }
    HotkeysNest(kb, keys, i);
    var k :| 0 <= k <= i && IsShift(PartKeysym(names, parts[k]));
    assert keys[k] == table[PartKeysym(names, parts[k])].0;
    assert k != i;
    assert keys[..i][k] == keys[k];
    assert keys[k] in Elements(keys[..i]) * kb.shiftKeys;
  }

  // ----- The class

  class ScriptRunner {
    const mapping: Mapping
    const names: map<string, KeySym>
    var keysymsToKeycodes: Table
    var events: seq<KeyEvent>

    constructor (mapping: Mapping, names: map<string, KeySym>)
      requires mapping.Valid()
      ensures this.mapping == mapping && this.names == names && events == []
      ensures Inverts(mapping, keysymsToKeycodes)
    {
      this.mapping, this.names, events := mapping, names, [];
      keysymsToKeycodes := map[];
      new;
      LoadKeyboardMapping();
    }

    /** The table becomes the inverse of the first two columns of the mapping. */
    method LoadKeyboardMapping()
      requires mapping.Valid()
      modifies this`keysymsToKeycodes
      ensures Inverts(mapping, keysymsToKeycodes)
    {
      hide BestWay, TableIs;
      NothingRead(mapping);
      keysymsToKeycodes := map[];
      for i := 0 to |mapping.rows|
        invariant TableIs(mapping, i, i, keysymsToKeycodes)
      {
        var keycode := mapping.minKeycode + i;
        for j := 0 to mapping.keysymsPerKeycode
          invariant TableIs(mapping, if j >= 1 then i + 1 else i, if j >= 2 then i + 1 else i, keysymsToKeycodes)
        {
          if j > 1 {
            continue;
          }
          ColumnRead(mapping, i, j, keysymsToKeycodes);
          var keysym := mapping.rows[i][j];
          if keysym == NO_SYMBOL {
            continue;
          }
          if keysym in keysymsToKeycodes && (!keysymsToKeycodes[keysym].1 || j != 0) {
            continue;
          }
          var shiftRequired := j == 1;
          keysymsToKeycodes := keysymsToKeycodes[keysym := (keycode, shiftRequired)];
        }
        if mapping.keysymsPerKeycode == 1 {
          ColumnRead(mapping, i, 1, keysymsToKeycodes);
        }
      }
    }

    predicate KeySymRequiresShift(keysym: KeySym)
      reads this
    {
      keysym in keysymsToKeycodes && keysymsToKeycodes[keysym].1
    }

    /** The keycode of a keysym, or 0, which no key has. */
    function GetKeyCodeForKeySym(keysym: KeySym): KeyCode
      reads this
    {
      if keysym in keysymsToKeycodes then keysymsToKeycodes[keysym].0 else 0
    }

    method SendKey(key: KeyCode, down: bool)
      modifies this`events
      ensures events == old(events) + [if down then Press(key) else Release(key)]
    {
      events := events + [if down then Press(key) else Release(key)];
    }

    /** Sends the events for one keysym. */
    method SendKeySym(keysym: KeySym, shiftKeycode: KeyCode)
      requires keysym in keysymsToKeycodes
      modifies this`events
      ensures events == old(events) + EventsFor(keysymsToKeycodes, shiftKeycode, keysym)
    {
      var shiftRequired := KeySymRequiresShift(keysym);
      if shiftRequired {
        SendKey(shiftKeycode, true);
      }
      SendKey(GetKeyCodeForKeySym(keysym), true);
      SendKey(GetKeyCodeForKeySym(keysym), false);
      if shiftRequired {
        SendKey(shiftKeycode, false);
      }
    }

    /** The keysym at index i of the text and its length, or None where the source would abort. */
    method ConvertNext(text: string, i: nat) returns (next: Option<(KeySym, nat)>)
      requires i < |text|
      ensures next == Next(names, text, i)
    {
      if text[i] == '\\' {
        next := ConvertEscapedStringToKeySym(names, text[i..]);
      } else {
        var converted := ConvertCharToKeySym(names, text[i]);
        next := if converted.Some? then Some((converted.value, 1)) else None;
      }
    }

    /** Types escaped text; ok is false where the source would abort. */
    method HandleStringCommand(text: string) returns (ok: bool)
      requires mapping.Valid() && Inverts(mapping, keysymsToKeycodes)
      modifies this`events
      ensures ok <==> XK_SHIFT_L in keysymsToKeycodes && Scan(names, text).Some?
                      && AllIn(keysymsToKeycodes, Scan(names, text).value)
      ensures ok ==> events == old(events) + EventsForAll(keysymsToKeycodes, keysymsToKeycodes[XK_SHIFT_L].0, Scan(names, text).value)
      ensures old(events) <= events
    {
      hide *;
      KeycodesAreNotZero(XK_SHIFT_L);
      var shiftKeycode := GetKeyCodeForKeySym(XK_SHIFT_L);
      if shiftKeycode == 0 {
        return false;
      }
      ghost var done: seq<KeySym> := [];
      var i := 0;
      ScanStart(names, text);
      EventsForNone(keysymsToKeycodes, shiftKeycode);
      while i < |text|
        invariant 0 <= i <= |text|
        invariant Scan(names, text) == Prepend(done, Scan(names, text[i..]))
        invariant AllIn(keysymsToKeycodes, done)
        invariant events == old(events) + EventsForAll(keysymsToKeycodes, shiftKeycode, done)
      {
        var next := ConvertNext(text, i);
        ScanStep(names, text, i, done);
        if next.None? {
          return false;
        }
        var (keysym, n) := next.value;
        KeycodesAreNotZero(keysym);
        if GetKeyCodeForKeySym(keysym) == 0 {
          if Scan(names, text).Some? {
            NotAllIn(keysymsToKeycodes, Scan(names, text).value, |done|);
          }
          return false;
        }
        SendKeySym(keysym, shiftKeycode);
        EventsForOneMore(keysymsToKeycodes, shiftKeycode, done, keysym);
        done := done + [keysym];
        i := i + n;
      }
      ScanEnd(names, text, done);
      ok := true;
    }

    lemma KeycodesAreNotZero(keysym: KeySym)
      requires mapping.Valid() && Inverts(mapping, keysymsToKeycodes)
      ensures GetKeyCodeForKeySym(keysym) == 0 <==> keysym !in keysymsToKeycodes
      ensures keysym in keysymsToKeycodes ==> GetKeyCodeForKeySym(keysym) == keysymsToKeycodes[keysym].0
    {
      InverseMeaning(mapping, keysymsToKeycodes, keysym);
    }

    /** Presses the keys of a hotkey, given its parts, and releases them; ok is false where the
        source would abort, which is before any key is pressed. */
    method HandleHotkeyCommand(parts: seq<string>) returns (ok: bool)
      requires mapping.Valid() && Inverts(mapping, keysymsToKeycodes)
      modifies this`events
      ensures ok <==> |parts| >= 2 && PartsAllowed(names, keysymsToKeycodes, parts, |parts|)
      ensures ok ==> exists keys: seq<KeyCode> ::
                       && |keys| == |parts| && KeysOf(names, keysymsToKeycodes, parts, keys)
                       && events == old(events) + Presses(keys) + ReleasesReversed(keys)
      ensures !ok ==> events == old(events)
    {
      hide *;
      if |parts| < 2 {
        return false;
      }
      var keycodes: seq<KeyCode>;
      ok, keycodes := FindHotkeyKeys(parts);
      if !ok {
        return false;
      }
      PressAndRelease(keycodes);
    }

    method FindHotkeyKeys(parts: seq<string>) returns (ok: bool, keycodes: seq<KeyCode>)
      requires mapping.Valid() && Inverts(mapping, keysymsToKeycodes)
      ensures ok <==> PartsAllowed(names, keysymsToKeycodes, parts, |parts|)
      ensures ok ==> |keycodes| == |parts| && KeysOf(names, keysymsToKeycodes, parts, keycodes)
    {
      hide Inverts, PartKeysym, PartAllowed;
      var sawShift := false;
      keycodes := [];
      for i := 0 to |parts|
        invariant sawShift <==> exists k | 0 <= k < i :: IsShift(PartKeysym(names, parts[k]))
        invariant |keycodes| == i && KeysOf(names, keysymsToKeycodes, parts, keycodes)
        invariant PartsAllowed(names, keysymsToKeycodes, parts, i)
      {
        var keysymName := Unabbreviated(parts[i]);
        var keysym := StringToKeysym(names, keysymName);
        PartKeysymIs(names, parts[i]);
        if IsShift(keysym) {
          sawShift := true;
        }
        var keycode := GetKeyCodeForKeySym(keysym);
        var enough := keysym != NO_SYMBOL && keycode != 0
                      && (!KeySymRequiresShift(keysym) || sawShift || IsUpperCaseLetter(keysymName));
        InverseMeaning(mapping, keysymsToKeycodes, keysym);
        PartAllowedIs(names, keysymsToKeycodes, parts, i);
        if !enough {
          return false, [];
        }
        keycodes := keycodes + [keycode];
      }
      ok := true;
    }

    method PressAndRelease(keycodes: seq<KeyCode>)
      modifies this`events
      ensures events == old(events) + Presses(keycodes) + ReleasesReversed(keycodes)
    {
      for i := 0 to |keycodes|
        invariant events == old(events) + Presses(keycodes[..i])
      {
        SendKey(keycodes[i], true);
        assert keycodes[..i + 1][..i] == keycodes[..i];
      }
      assert keycodes[..|keycodes|] == keycodes;
      ghost var pressed := events;
      var i := |keycodes|;
      while i > 0
        invariant 0 <= i <= |keycodes|
        invariant events + ReleasesReversed(keycodes[..i]) == pressed + ReleasesReversed(keycodes)
      {
        i := i - 1;
        SendKey(keycodes[i], false);
        assert keycodes[..i + 1][..i] == keycodes[..i];
      }
    }
  }

  lemma ScanStart(names: map<string, KeySym>, text: string)
    ensures Scan(names, text) == Prepend([], Scan(names, text[0..]))
  {
    assert text[0..] == text;
    if Scan(names, text).Some? {
      assert [] + Scan(names, text).value == Scan(names, text).value;
    }
  }

  lemma ScanEnd(names: map<string, KeySym>, text: string, done: seq<KeySym>)
    requires Scan(names, text) == Prepend(done, Scan(names, text[|text|..]))
    ensures Scan(names, text) == Some(done)
  {
    assert Scan(names, text[|text|..]) == Some([]);
    assert done + [] == done;
  }

  /** What comes next at i. */
  function Next(names: map<string, KeySym>, text: string, i: nat): (r: Option<(KeySym, nat)>)
    requires i < |text|
    ensures r.Some? ==> 1 <= r.value.1 && i + r.value.1 <= |text|
  {
    First(names, text[i..])
  }

  lemma ScanStep(names: map<string, KeySym>, text: string, i: nat, done: seq<KeySym>)
    requires i < |text| && Scan(names, text) == Prepend(done, Scan(names, text[i..]))
    ensures var next := Next(names, text, i);
            && (next.None? ==> Scan(names, text).None?)
            && (next.Some? ==>
                  && Scan(names, text) == Prepend(done + [next.value.0], Scan(names, text[i + next.value.1..]))
                  && (Scan(names, text).Some? ==> |done| < |Scan(names, text).value| && Scan(names, text).value[|done|] == next.value.0))
  {
    hide First;
    var next := Next(names, text, i);
    if next.Some? {
      var (keysym, n) := next.value;
      assert text[i..][n..] == text[i + n..];
      assert Scan(names, text[i..]) == Prepend([keysym], Scan(names, text[i + n..]));
      var rest := Scan(names, text[i + n..]);
      hide Scan, Next;
      PrependTwice(done, keysym, rest);
    }
  }

  lemma PrependTwice(done: seq<KeySym>, keysym: KeySym, rest: Option<seq<KeySym>>)
    ensures Prepend(done, Prepend([keysym], rest)) == Prepend(done + [keysym], rest)
    ensures var all := Prepend(done + [keysym], rest); all.Some? ==> |done| < |all.value| && all.value[|done|] == keysym
  {
    if rest.Some? {
      SeqAssociative(done, [keysym], rest.value);
    }
  }

  lemma EventsForNone(table: Table, shiftKey: KeyCode)
    ensures AllIn(table, []) && EventsForAll(table, shiftKey, []) == []
  {
  }

  lemma NotAllIn(table: Table, ks: seq<KeySym>, i: nat)
    requires i < |ks| && ks[i] !in table
    ensures !AllIn(table, ks)
  {
  }

  lemma EventsForOneMore(table: Table, shiftKey: KeyCode, ks: seq<KeySym>, s: KeySym)
    requires s in table && AllIn(table, ks)
    ensures AllIn(table, ks + [s])
    ensures EventsForAll(table, shiftKey, ks + [s]) == EventsForAll(table, shiftKey, ks) + EventsFor(table, shiftKey, s)
  {
    assert (ks + [s])[..|ks|] == ks;
  }

  // ----- From text to what is typed, through the class

  /** Some key has the keysym in one of its first two columns. */
  ghost predicate OnKeyboard(m: Mapping, s: KeySym)
    requires m.Valid()
  {
    s != NO_SYMBOL && exists i | 0 <= i < |m.rows| :: m.At(i, 0) == s || m.At(i, 1) == s
  }

  /** The first key that types the keysym without Shift has nothing else on it, and the keysym is
      a capital letter: the server then takes the key for the small letter. */
  ghost predicate BareCapital(kb: Keyboard, s: KeySym)
    requires kb.mapping.Valid()
  {
    var first := kb.mapping.FirstRow(0, |kb.mapping.rows|, s);
    first.Some? && kb.mapping.At(first.value, 1) == NO_SYMBOL && kb.lower(s) != kb.upper(s) && kb.lower(s) != s
  }

  /** The key that types the keysym acts as Shift, and then types nothing. */
  ghost predicate OnShiftKey(kb: Keyboard, s: KeySym)
    requires kb.mapping.Valid()
  {
    var way := BestWay(kb.mapping, |kb.mapping.rows|, |kb.mapping.rows|, s);
    way.Some? && way.value.0 in kb.shiftKeys
  }

  /** Keys with Shift_L act as Shift. */
  ghost predicate ShiftLShifts(kb: Keyboard)
    requires kb.mapping.Valid()
  {
    forall i | 0 <= i < |kb.mapping.rows| ::
      kb.mapping.At(i, 0) == XK_SHIFT_L || kb.mapping.At(i, 1) == XK_SHIFT_L ==> kb.mapping.minKeycode + i in kb.shiftKeys
  }

  lemma TableHasKeyboard(m: Mapping, table: Table, s: KeySym)
    requires m.Valid() && Inverts(m, table)
    ensures s in table <==> OnKeyboard(m, s)
  {
    InverseMeaning(m, table, s);
    hide Inverts;
  }

  lemma MistypedAre(kb: Keyboard, table: Table, s: KeySym)
    requires kb.mapping.Valid() && Inverts(kb.mapping, table) && s in table && kb.HasKey(table[s].0)
    ensures Mistyped(kb, table, s) <==> OnShiftKey(kb, s) || BareCapital(kb, s)
  {
    var n := |kb.mapping.rows|;
    assert EntryIs(kb.mapping, n, n, table, s);
  }

  /** The keysyms of an accepted text can be typed, and so can Shift. */
  lemma AcceptedIsTypable(kb: Keyboard, table: Table, ks: seq<KeySym>)
    requires kb.mapping.Valid() && Inverts(kb.mapping, table) && ShiftLShifts(kb)
    requires XK_SHIFT_L in table && AllIn(table, ks)
    ensures AllTypable(kb, table, ks)
    ensures kb.HasKey(table[XK_SHIFT_L].0) && table[XK_SHIFT_L].0 in kb.shiftKeys
  {
    InverseMeaning(kb.mapping, table, XK_SHIFT_L);
    hide Inverts;
    forall i | 0 <= i < |ks|
      ensures Typable(kb, table, ks[i])
    {
      InverseMeaning(kb.mapping, table, ks[i]);
    }
  }

  /** Accepted text, typed on the keyboard, is what it denotes exactly if none of its keysyms is on
      a key that acts as Shift, or is a capital letter of a key with nothing else on it. */
  lemma AcceptedTextTypesItself(kb: Keyboard, table: Table, ks: seq<KeySym>)
    requires kb.mapping.Valid() && Inverts(kb.mapping, table) && ShiftLShifts(kb)
    requires XK_SHIFT_L in table && AllIn(table, ks)
    ensures var events := EventsForAll(table, table[XK_SHIFT_L].0, ks);
            && (forall i | 0 <= i < |events| :: kb.HasKey(events[i].key))
            && (kb.Types({}, events) == ks
                <==> forall i | 0 <= i < |ks| :: !OnShiftKey(kb, ks[i]) && !BareCapital(kb, ks[i]))
            && kb.HeldAfter({}, events) == {}
  {
    hide Inverts, Mistyped, BareCapital, OnShiftKey, ShiftLShifts;
    AcceptedIsTypable(kb, table, ks);
    CompiledTextTypesItself(kb, table, table[XK_SHIFT_L].0, ks);
    forall i | 0 <= i < |ks|
      ensures kb.HasKey(table[ks[i]].0)
      ensures Mistyped(kb, table, ks[i]) <==> OnShiftKey(kb, ks[i]) || BareCapital(kb, ks[i])
    {
      assert Typable(kb, table, ks[i]);
      MistypedAre(kb, table, ks[i]);
    }
  }

  /** The class used as a whole: it reads the keyboard's mapping and handles one string command.
      The text goes through exactly if it can be read and every keysym, and Shift_L, is on the
      keyboard; replaying the events then types exactly the keysyms of the text, unless one is on a
      Shift key or the capital of a key with nothing else on it; and no key is left held. */
  method TypeText(kb: Keyboard, names: map<string, KeySym>, text: string) returns (ok: bool, events: seq<KeyEvent>)
    requires kb.mapping.Valid() && ShiftLShifts(kb)
    ensures ok <==> OnKeyboard(kb.mapping, XK_SHIFT_L) && Scan(names, text).Some?
                    && forall i | 0 <= i < |Scan(names, text).value| :: OnKeyboard(kb.mapping, Scan(names, text).value[i])
    ensures ok ==>
              var ks := Scan(names, text).value;
              && (forall i | 0 <= i < |events| :: kb.HasKey(events[i].key))
              && (kb.Types({}, events) == ks
                  <==> forall i | 0 <= i < |ks| :: !OnShiftKey(kb, ks[i]) && !BareCapital(kb, ks[i]))
              && kb.HeldAfter({}, events) == {}
  {
    hide Scan, Inverts, OnKeyboard, BareCapital, OnShiftKey, ShiftLShifts, EventsForAll, Keyboard.Types, Keyboard.HeldAfter;
    var runner := new ScriptRunner(kb.mapping, names);
    ok := runner.HandleStringCommand(text);
    events := runner.events;
    ghost var table := runner.keysymsToKeycodes;
    TableHasKeyboard(kb.mapping, table, XK_SHIFT_L);
    forall s: KeySym
      ensures s in table <==> OnKeyboard(kb.mapping, s)
    {
      TableHasKeyboard(kb.mapping, table, s);
    }
    if ok {
      ghost var ks := Scan(names, text).value;
      AcceptedTextTypesItself(kb, table, ks);
      assert events == EventsForAll(table, table[XK_SHIFT_L].0, ks);
    }
  }
}
