/** The account list (kernel/fs/user.c): written as text, read back by loops over the text. */
module Accounts {
  import opened WfsLayout

  const MAX_USERS: nat := 32
  const NAME_LEN: nat := 31
  const SHELL_MAX: nat := 63
  const LIST_CAP: nat := 4096
  const PASSWORD_CAP: nat := 64
  const LIMIT64: nat := 0x1_0000_0000_0000_0000
  const COLON: Byte := 58
  const NEWLINE: Byte := 10
  const ZERO: Byte := 48
  const ROOT_UID: Word := 0
  const ROOT_NAME: Str := [114, 111, 111, 116]

  type Str = seq<Byte>
  type Long = v: int | 0 <= v < 0x1_0000_0000_0000_0000

  datatype Option<T> = None | Some(value: T)
  datatype User = User(name: Str, uid: Word, roles: Word, shell: Str, salt: Long, hash: Long)

  type Table = t: seq<Option<User>> | |t| == 32 witness seq(32, k => None)

  /* ---- numbers as text ---- */

  function Digits(v: nat): (s: Str)
    ensures s != [] && forall b <- s :: IsDigit(b)
  {
    if v < 10 then [ZERO + v] else Digits(v / 10) + [ZERO + v % 10]
  }

  predicate IsDigit(b: Byte) { ZERO <= b <= ZERO + 9 }

  function Pow10(k: nat): nat { if k == 0 then 1 else 10 * Pow10(k - 1) }

  lemma {:induction false} DigitsShort(v: nat, k: nat)
    requires k > 0 && v < Pow10(k)
    ensures |Digits(v)| <= k
  {
    if v >= 10 { DigitsShort(v / 10, k - 1); }
  }

  lemma DigitsFit(v: nat)
    ensures v < LIMIT64 ==> |Digits(v)| <= 20
    ensures v < WORD_LIMIT ==> |Digits(v)| <= 10
  {
    Powers();
    if v < WORD_LIMIT { DigitsShort(v, 10); }
    if v < LIMIT64 { DigitsShort(v, 20); }
  }

  lemma Powers()
    ensures Pow10(10) == 10_000_000_000 && Pow10(20) == 100_000_000_000_000_000_000
  {
    assert Pow10(5) == 100_000;
    assert Pow10(10) == 10_000_000_000;
    assert Pow10(15) == 1_000_000_000_000_000;
    assert Pow10(20) == 100_000_000_000_000_000_000;
  }

  /** How far a run of digits goes. */
  function DigitRun(s: Str): (n: nat)
    ensures n <= |s| && (n < |s| ==> !IsDigit(s[n])) && forall k :: 0 <= k < n ==> IsDigit(s[k])
  {
    if s == [] || !IsDigit(s[0]) then 0 else 1 + DigitRun(s[1..])
  }

  /** The number a string of digits spells. */
  function Value(s: Str): nat
    requires forall b <- s :: IsDigit(b)
  {
    if s == [] then 0
    else
      assert s[|s| - 1] in s && IsDigit(s[|s| - 1]);
      Value(s[..|s| - 1]) * 10 + (s[|s| - 1] - ZERO)
  }

  lemma {:induction false} ValueOfDigits(v: nat)
    ensures Value(Digits(v)) == v
  {
    if v < 10 {
      assert [ZERO + v][..0] == [];
    } else {
      ValueOfDigits(v / 10);
      var s := Digits(v);
      assert s[..|s| - 1] == Digits(v / 10);
    }
  }

  /* ---- a line of the list ---- */

  function ShellField(u: User): Str { if u.shell == [] then [] else [COLON] + u.shell }

  function LineBody(u: User): Str
  {
    u.name + [COLON] + Digits(u.uid) + [COLON] + Digits(u.roles) + ShellField(u)
  }

  function ListText(t: seq<Option<User>>): Str
  {
    if t == [] then []
    else ListText(t[..|t| - 1]) + match t[|t| - 1] { case None => [] case Some(u) => LineBody(u) + [NEWLINE] }
  }

  function PasswordText(u: User): Str { Digits(u.salt) + [COLON] + Digits(u.hash) + [NEWLINE] }

  /** What the fixed arrays of an entry hold. */
  predicate Sized(u: User) { |u.name| <= NAME_LEN && |u.shell| <= SHELL_MAX }

  /** An entry the format can carry. */
  predicate Sayable(u: User)
  {
    && Sized(u) && u.name != []
    && (forall b <- u.name :: b != COLON && b != NEWLINE && b != 0)
    && (forall b <- u.shell :: b != NEWLINE && b != 0)
  }

  lemma LineShort(u: User)
    requires Sized(u)
    ensures |LineBody(u)| <= 117
  {
    DigitsFit(u.uid);
    DigitsFit(u.roles);
  }

  /** 118 bytes a line at most, so the text never gets near the buffer's end. */
  lemma {:induction false} ListShort(t: seq<Option<User>>)
    requires forall k :: 0 <= k < |t| && t[k].Some? ==> Sized(t[k].value)
    ensures |ListText(t)| <= 118 * |t|
  {
    if t != [] {
      ListShort(t[..|t| - 1]);
      if t[|t| - 1].Some? { LineShort(t[|t| - 1].value); }
    }
  }

  /* ---- writing ---- */

  function Min(a: nat, b: nat): nat { if a < b then a else b }

  /** append_u64: digits made backwards in a small array, copied as far as there is room. */
  method AppendU64(buf: array<Byte>, at: nat, v: Long) returns (at': nat)
    requires at < buf.Length
    modifies buf
    ensures at' == at + Min(|Digits(v)|, buf.Length - 1 - at)
    ensures buf[..at'] == old(buf[..at]) + Digits(v)[..at' - at]
    ensures at + |Digits(v)| < buf.Length ==> at' == at + |Digits(v)| && buf[..at'] == old(buf[..at]) + Digits(v)
  {
    var tmp, n := Backwards(v);
    ghost var d := Digits(v);
    at' := at;
    assert d[..0] == [];
    while n > 0 && at' + 1 < buf.Length
      invariant at <= at' < buf.Length && at' - at <= |d| && n == |d| - (at' - at)
      invariant forall k :: 0 <= k < n ==> tmp[k] == d[|d| - 1 - k]
      invariant buf[..at'] == old(buf[..at]) + d[..at' - at]
      decreases n
    {
      n := n - 1;
      assert tmp[n] == d[at' - at];
      buf[at'] := tmp[n];
      assert d[..at' - at + 1] == d[..at' - at] + [d[at' - at]];
      assert buf[..at' + 1] == buf[..at'] + [buf[at']];
      at' := at' + 1;
    }
  }

  /** The digits, last first; 21 places are enough for any 64-bit number. */
  lemma LastDigit(x: nat)
    ensures var ds := Digits(x); ds != [] && ds[|ds| - 1] == ZERO + x % 10
    ensures var ds := Digits(x); if x < 10 then |ds| == 1 else |ds| > 1 && ds[..|ds| - 1] == Digits(x / 10)
  {
  }

  method Backwards(v: Long) returns (tmp: array<Byte>, n: nat)
    ensures fresh(tmp) && n == |Digits(v)| <= tmp.Length == 21
    ensures forall k :: 0 <= k < n ==> tmp[k] == Digits(v)[n - 1 - k]
  {
    hide Digits;
    DigitsFit(v);
    LastDigit(v);
    tmp := new Byte[21];
    n := 0;
    if v == 0 {
      tmp[0] := ZERO;
      n := 1;
    }
    ghost var d := Digits(v);
    var x: nat := v;
    while x != 0
      invariant n <= |d| && (x == 0 <==> n == |d|) && (x != 0 ==> d[..|d| - n] == Digits(x))
      invariant forall k :: 0 <= k < n ==> tmp[k] == d[|d| - 1 - k]
      decreases x
    {
      LastDigit(x);
      assert d[|d| - 1 - n] == d[..|d| - n][|d| - n - 1];
      tmp[n] := ZERO + x % 10;
      assert d[..|d| - n - 1] == d[..|d| - n][..|d| - n - 1];
      n := n + 1;
      x := x / 10;
    }
  }

  /** append_str. */
  method AppendStr(buf: array<Byte>, at: nat, s: Str) returns (at': nat)
    requires at < buf.Length
    modifies buf
    ensures at' == at + Min(|s|, buf.Length - 1 - at)
    ensures buf[..at'] == old(buf[..at]) + s[..at' - at]
    ensures at + |s| < buf.Length ==> at' == at + |s| && buf[..at'] == old(buf[..at]) + s
  {
    at' := at;
    assert s[..0] == [];
    while at' - at < |s| && at' + 1 < buf.Length
      invariant at <= at' < buf.Length && at' - at <= |s|
      invariant buf[..at'] == old(buf[..at]) + s[..at' - at]
    {
      buf[at'] := s[at' - at];
      assert s[..at' - at + 1] == s[..at' - at] + [s[at' - at]];
      assert buf[..at' + 1] == buf[..at'] + [buf[at']];
      at' := at' + 1;
    }
  }

  method AppendChar(buf: array<Byte>, at: nat, b: Byte) returns (at': nat)
    requires at < buf.Length
    modifies buf
    ensures at' == at + 1 && buf[..at'] == old(buf[..at]) + [b]
  {
    buf[at] := b;
    at' := at + 1;
    assert buf[..at'] == buf[..at] + [buf[at]];
  }

  /** One user's line, given room for it. */
  method WriteLine(buf: array<Byte>, at: nat, u: User) returns (at': nat)
    requires Sized(u) && at + 118 < buf.Length
    modifies buf
    ensures at' == at + |LineBody(u)| + 1 && at' <= at + 118
    ensures buf[..at'] == old(buf[..at]) + LineBody(u) + [NEWLINE]
  {
    hide Digits, ShellField;
    LineShort(u);
    ghost var w := buf[..at];
    at' := AppendStr(buf, at, u.name);
    at' := AppendChar(buf, at', COLON);
    ghost var w1 := w + u.name + [COLON];
    assert buf[..at'] == w1;
    at' := AppendU64(buf, at', u.uid);
    at' := AppendChar(buf, at', COLON);
    ghost var w2 := w1 + Digits(u.uid) + [COLON];
    assert buf[..at'] == w2;
    at' := AppendU64(buf, at', u.roles);
    at' := WriteShell(buf, at', u);
    Line(w, u);
    at' := AppendChar(buf, at', NEWLINE);
  }

  method WriteShell(buf: array<Byte>, at: nat, u: User) returns (at': nat)
    requires at + |ShellField(u)| < buf.Length
    modifies buf
    ensures at' == at + |ShellField(u)| && buf[..at'] == old(buf[..at]) + ShellField(u)
  {
    at' := at;
    ghost var w := buf[..at];
    if u.shell != [] {
      at' := AppendChar(buf, at', COLON);
      at' := AppendStr(buf, at', u.shell);
      assert buf[..at'] == w + ShellField(u);
    }
  }

  lemma Line(w: Str, u: User)
    ensures w + u.name + [COLON] + Digits(u.uid) + [COLON] + Digits(u.roles) + ShellField(u) == w + LineBody(u)
  {
  }

  /** save_user_list: the text is every line whole, whatever the entries hold. */
  method ListBytes(t: Table) returns (text: Str)
    requires forall k :: 0 <= k < |t| && t[k].Some? ==> Sized(t[k].value)
    ensures text == ListText(t) && |text| <= 3776
  {
    hide LineBody, ListText;
    ListShort(t);
    var buf := new Byte[LIST_CAP];
    var at: nat := 0;
    NoLines();
    for i := 0 to MAX_USERS
      invariant at == |ListText(t[..i])| && at <= 118 * i && buf[..at] == ListText(t[..i])
    {
      NextLine(t, i);
      if t[i].Some? {
        at := WriteLine(buf, at, t[i].value);
      }
    }
    assert t[..MAX_USERS] == t;
    text := buf[..at];
  }

  lemma NoLines()
    ensures ListText([]) == []
  {
  }

  lemma NextLine(t: seq<Option<User>>, i: nat)
    requires i < |t|
    ensures ListText(t[..i + 1]) == ListText(t[..i])
      + match t[i] { case None => [] case Some(u) => LineBody(u) + [NEWLINE] }
  {
    assert t[..i + 1][..i] == t[..i];
  }

  /** save_password's text: 42 bytes at most of a buffer of 64. */
  method PasswordBytes(u: User) returns (text: Str)
    ensures text == PasswordText(u) && |text| <= 42
  {
    DigitsFit(u.salt);
    DigitsFit(u.hash);
    var buf := new Byte[PASSWORD_CAP];
    assert buf[..0] == [];
    var at := AppendU64(buf, 0, u.salt);
    assert buf[..at] == Digits(u.salt);
    at := AppendChar(buf, at, COLON);
    at := AppendU64(buf, at, u.hash);
    assert buf[..at] == Digits(u.salt) + [COLON] + Digits(u.hash);
    at := AppendChar(buf, at, NEWLINE);
    text := buf[..at];
  }

  /* ---- reading ---- */

  function NameLen(s: Str, most: nat): (n: nat)
    ensures n <= |s| && n <= most && (n < |s| && n < most ==> s[n] == COLON)
    decreases most
  {
    if s == [] || s[0] == COLON || most == 0 then 0 else 1 + NameLen(s[1..], most - 1)
  }

  function ShellLen(s: Str, most: nat): (n: nat)
    ensures n <= |s| && n <= most
    decreases most
  {
    if s == [] || s[0] == NEWLINE || most == 0 then 0 else 1 + ShellLen(s[1..], most - 1)
  }

  /** The digits at the front of `s`, kept to 64 bits. */
  function Number(s: Str): Long { Value(s[..DigitRun(s)]) % LIMIT64 }

  /** What follows the digits at the front. */
  function AfterDigits(s: Str): Str { s[DigitRun(s)..] }

  predicate Starts(s: Str, b: Byte) { s != [] && s[0] == b }

  function ShellIn(s: Str): Str
  {
    if Starts(s, COLON) then s[1..][..ShellLen(s[1..], SHELL_MAX)] else []
  }

  /** parse_list_line: the entry a line describes, without its password. */
  function Parsed(line: Str): Option<User>
  {
    var n := NameLen(line, NAME_LEN);
    var rest := line[n..];
    if !Starts(rest, COLON) || n == 0 then None
    else
      var uid := rest[1..];
      if !Starts(AfterDigits(uid), COLON) then None
      else
        var roles := AfterDigits(uid)[1..];
        Some(User(line[..n], Number(uid) % WORD_LIMIT, Number(roles) % WORD_LIMIT, ShellIn(AfterDigits(roles)), 0, 0))
  }

  /** load_password: zeroes where there is no file. */
  function WithPassword(u: User, files: imap<Str, Str>): User
  {
    if u.name !in files then u.(salt := 0, hash := 0)
    else
      var text := files[u.name][..Min(|files[u.name]|, PASSWORD_CAP - 1)];
      var rest := AfterDigits(text);
      u.(salt := Number(text), hash := if Starts(rest, COLON) then Number(rest[1..]) else 0)
  }

  datatype Loaded = Loaded(us: seq<User>, next: Word)

  function Add(l: Loaded, line: Str, files: imap<Str, Str>): Loaded
  {
    match Parsed(line)
    case None => l
    case Some(u) =>
      if |l.us| >= MAX_USERS then l
      else Loaded(l.us + [WithPassword(u, files)], if u.uid >= l.next then (u.uid + 1) % WORD_LIMIT else l.next)
  }

  function AddAll(l: Loaded, lines: seq<Str>, files: imap<Str, Str>): Loaded
    decreases |lines|
  {
    if lines == [] then l else AddAll(Add(l, lines[0], files), lines[1..], files)
  }

  predicate IsEnd(b: Byte) { b == NEWLINE || b == 0 }

  function LineLen(s: Str): (n: nat)
    ensures n <= |s| && (n < |s| ==> IsEnd(s[n]))
  {
    if s == [] || IsEnd(s[0]) then 0 else 1 + LineLen(s[1..])
  }

  function Lines(s: Str): seq<Str>
    decreases |s|
  {
    var n := LineLen(s);
    if n == |s| then [s] else [s[..n]] + Lines(s[n + 1..])
  }

  const NOBODY: Loaded := Loaded([], 1)

  /** What the list file says, as far as the buffer holds it. */
  function Loading(list: Str, files: imap<Str, Str>): Loaded
  {
    AddAll(NOBODY, Lines(list[..Min(|list|, LIST_CAP - 1)]), files)
  }

  lemma {:induction false} AddAllRoom(l: Loaded, lines: seq<Str>, files: imap<Str, Str>)
    requires |l.us| <= MAX_USERS
    ensures |AddAll(l, lines, files).us| <= MAX_USERS
    decreases |lines|
  {
    if lines != [] { AddAllRoom(Add(l, lines[0], files), lines[1..], files); }
  }

  function TableOf(us: seq<User>): Table
    requires |us| <= MAX_USERS
  {
    seq(MAX_USERS, k requires 0 <= k => if k < |us| then Some(us[k]) else None)
  }

  predicate HasRoot(us: seq<User>) { exists k :: 0 <= k < |us| && us[k].uid == ROOT_UID }

  /* ---- the round trip ---- */

  /** The users of a table, in order. */
  function Used(t: seq<Option<User>>): seq<User>
  {
    if t == [] then []
    else Used(t[..|t| - 1]) + match t[|t| - 1] { case None => [] case Some(u) => [u] }
  }

  lemma {:induction false} DigitRunStops(d: Str, rest: Str)
    requires (forall b <- d :: IsDigit(b)) && (rest == [] || !IsDigit(rest[0]))
    ensures DigitRun(d + rest) == |d|
  {
    if d == [] {
      assert d + rest == rest;
    } else {
      assert (d + rest)[1..] == d[1..] + rest && d[0] in d;
      DigitRunStops(d[1..], rest);
    }
  }

  /** A printed number reads back, whatever follows it that is not a digit. */
  lemma NumberReads(v: nat, rest: Str)
    requires v < LIMIT64 && (rest == [] || !IsDigit(rest[0]))
    ensures Number(Digits(v) + rest) == v && AfterDigits(Digits(v) + rest) == rest
  {
    hide Digits, Value;
    DigitsAreDigits(v);
    DigitRunStops(Digits(v), rest);
    assert (Digits(v) + rest)[..|Digits(v)|] == Digits(v);
    ValueOfDigits(v);
  }

  lemma DigitsAreDigits(v: nat)
    ensures Digits(v) != [] && forall b <- Digits(v) :: IsDigit(b)
  {
  }

  lemma {:induction false} NameReads(name: Str, rest: Str, most: nat)
    requires |name| <= most && COLON !in name && Starts(rest, COLON)
    ensures NameLen(name + rest, most) == |name|
    decreases |name|
  {
    if name == [] {
      assert name + rest == rest;
    } else {
      assert (name + rest)[1..] == name[1..] + rest;
      NameReads(name[1..], rest, most - 1);
    }
  }

  lemma {:induction false} ShellReads(shell: Str, most: nat)
    requires |shell| <= most && NEWLINE !in shell
    ensures ShellLen(shell, most) == |shell|
    decreases most
  {
    if shell != [] { ShellReads(shell[1..], most - 1); }
  }

  lemma ShellFieldReads(u: User)
    requires Sayable(u)
    ensures ShellIn(ShellField(u)) == u.shell && (ShellField(u) == [] || !IsDigit(ShellField(u)[0]))
  {
    if u.shell != [] {
      assert ShellField(u)[1..] == u.shell;
      ShellReads(u.shell, SHELL_MAX);
    }
  }

  /** A line reads back as the entry it was written for. */
  lemma LineReads(u: User)
    requires Sayable(u)
    ensures Parsed(LineBody(u)) == Some(u.(salt := 0, hash := 0))
  {
    hide Digits, ShellField, ShellIn, Number, AfterDigits, NameLen;
    ShellFieldReads(u);
    var roles := Digits(u.roles) + ShellField(u);
    NumberReads(u.roles, ShellField(u));
    var uid := Digits(u.uid) + ([COLON] + roles);
    NumberReads(u.uid, [COLON] + roles);
    var line := LineBody(u);
    assert line == u.name + ([COLON] + uid);
    NameReads(u.name, [COLON] + uid, NAME_LEN);
    assert line[..|u.name|] == u.name && line[|u.name|..] == [COLON] + uid;
    assert ([COLON] + uid)[1..] == uid && ([COLON] + roles)[1..] == roles;
  }

  /** The password file, if any, is the one written for the user. */
  predicate FileMatches(u: User, files: imap<Str, Str>)
  {
    if u.name in files then files[u.name] == PasswordText(u) else u.salt == 0 && u.hash == 0
  }

  lemma PasswordReads(u: User, files: imap<Str, Str>)
    requires FileMatches(u, files)
    ensures WithPassword(u.(salt := 0, hash := 0), files) == u
  {
    hide Digits, Number, AfterDigits;
    if u.name in files {
      DigitsFit(u.salt);
      DigitsFit(u.hash);
      var text := PasswordText(u);
      assert text[..|text|] == text;
      var hash := Digits(u.hash) + [NEWLINE];
      assert text == Digits(u.salt) + ([COLON] + hash);
      NumberReads(u.salt, [COLON] + hash);
      NumberReads(u.hash, [NEWLINE]);
      assert ([COLON] + hash)[1..] == hash;
    }
  }

  /** The lines a table is written as. */
  function Bodies(t: seq<Option<User>>): seq<Str>
  {
    if t == [] then []
    else Bodies(t[..|t| - 1]) + match t[|t| - 1] { case None => [] case Some(u) => [LineBody(u)] }
  }

  lemma {:induction false} LineLenWhole(line: Str, rest: Str)
    requires (forall b <- line :: !IsEnd(b)) && (rest == [] || IsEnd(rest[0]))
    ensures LineLen(line + rest) == |line|
  {
    if line == [] {
      assert line + rest == rest;
    } else {
      assert (line + rest)[1..] == line[1..] + rest && line[0] in line;
      LineLenWhole(line[1..], rest);
    }
  }

  lemma LineHasNoEnd(u: User)
    requires Sayable(u)
    ensures forall b <- LineBody(u) :: !IsEnd(b)
  {
    hide Digits;
    DigitsAreDigits(u.uid);
    DigitsAreDigits(u.roles);
  }

  /** Splitting at a newline. */
  lemma {:induction false} LinesJoin(a: Str, b: Str)
    ensures Lines(a + [NEWLINE] + b) == Lines(a) + Lines(b)
    decreases |a|
  {
    hide LineLen;
    var s, n := a + [NEWLINE] + b, LineLen(a);
    LineLenStops(a, b);
    if n == |a| {
      assert s[n + 1..] == b && s[..n] == a;
    } else {
      assert s[n + 1..] == a[n + 1..] + [NEWLINE] + b && s[..n] == a[..n];
      LinesJoin(a[n + 1..], b);
    }
  }

  lemma {:induction false} LineLenStops(a: Str, b: Str)
    ensures LineLen(a + [NEWLINE] + b) == LineLen(a)
    decreases |a|
  {
    var s := a + [NEWLINE] + b;
    if a != [] && !IsEnd(a[0]) {
      assert s[1..] == a[1..] + [NEWLINE] + b;
      LineLenStops(a[1..], b);
    }
  }

  lemma {:induction false} OneLine(line: Str)
    requires forall b <- line :: !IsEnd(b)
    ensures Lines(line) == [line]
  {
    assert line + [] == line;
    LineLenWhole(line, []);
  }

  /** One more finished line. */
  lemma LinesSnoc(text: Str, line: Str, ls: seq<Str>)
    requires text == [] || text[|text| - 1] == NEWLINE
    requires (forall b <- line :: !IsEnd(b)) && Lines(text) == ls + [[]]
    ensures Lines(text + line + [NEWLINE]) == ls + [line] + [[]]
  {
    hide Lines;
    OneLine(line);
    OneLine([]);
    assert text + line + [NEWLINE] == (text + line) + [NEWLINE] + [];
    LinesJoin(text + line, []);
    if text == [] {
      assert text + line == line && ls == (ls + [[]])[..0];
    } else {
      var p := text[..|text| - 1];
      assert text == p + [NEWLINE] + [] && text + line == p + [NEWLINE] + line;
      LinesJoin(p, []);
      LinesJoin(p, line);
      assert Lines(p) == (Lines(p) + [[]])[..|Lines(p)|] == (ls + [[]])[..|ls|] == ls;
    }
  }

  /** The text splits back into the lines it was made of. */
  lemma {:induction false} ListSplits(t: seq<Option<User>>)
    requires forall k :: 0 <= k < |t| && t[k].Some? ==> Sayable(t[k].value)
    ensures Lines(ListText(t)) == Bodies(t) + [[]]
    ensures ListText(t) == [] || ListText(t)[|ListText(t)| - 1] == NEWLINE
    decreases |t|
  {
    hide LineBody, Lines;
    if t == [] {
      OneLine([]);
    } else {
      var n := |t| - 1;
      ListSplits(t[..n]);
      if t[n].Some? {
        var text, line := ListText(t[..n]), LineBody(t[n].value);
        LineHasNoEnd(t[n].value);
        LinesSnoc(text, line, Bodies(t[..n]));
        assert text + (line + [NEWLINE]) == text + line + [NEWLINE];
      } else {
        assert ListText(t) == ListText(t[..n]) && Bodies(t) == Bodies(t[..n]);
      }
    }
  }

  lemma {:induction false} AddAllSnoc(l: Loaded, lines: seq<Str>, line: Str, files: imap<Str, Str>)
    ensures AddAll(l, lines + [line], files) == Add(AddAll(l, lines, files), line, files)
    decreases |lines|
  {
    hide Add;
    if lines == [] {
      assert lines + [line] == [line];
      assert AddAll(l, [line], files) == AddAll(Add(l, line, files), [line][1..], files);
    } else {
      assert (lines + [line])[1..] == lines[1..] + [line];
      AddAllSnoc(Add(l, lines[0], files), lines[1..], line, files);
    }
  }

  lemma {:induction false} UsedReads(t: seq<Option<User>>, files: imap<Str, Str>)
    requires |t| <= MAX_USERS
    requires forall k :: 0 <= k < |t| && t[k].Some? ==> Sayable(t[k].value) && FileMatches(t[k].value, files)
    ensures AddAll(NOBODY, Bodies(t), files).us == Used(t) && |Used(t)| <= |t|
    decreases |t|
  {
    hide LineBody, Parsed, WithPassword, FileMatches;
    if t != [] {
      var n := |t| - 1;
      UsedReads(t[..n], files);
      if t[n].Some? {
        var u := t[n].value;
        AddAllSnoc(NOBODY, Bodies(t[..n]), LineBody(u), files);
        LineReads(u);
        PasswordReads(u, files);
      } else {
        assert Bodies(t) == Bodies(t[..n]) && Used(t) == Used(t[..n]);
      }
    }
  }

  /** Saving and loading gives back the same users in the same order, passwords and all: the
      32 lines never reach the end of either buffer. */
  lemma ListRoundTrip(t: Table, files: imap<Str, Str>)
    requires forall k :: 0 <= k < |t| && t[k].Some? ==> Sayable(t[k].value) && FileMatches(t[k].value, files)
    ensures Loading(ListText(t), files).us == Used(t)
  {
    hide AddAll, Add, Lines, ListText;
    ListShort(t);
    assert ListText(t)[..|ListText(t)|] == ListText(t);
    ListSplits(t);
    UsedReads(t, files);
    AddAllSnoc(NOBODY, Bodies(t), [], files);
    EmptyLine(AddAll(NOBODY, Bodies(t), files), files);
  }

  lemma EmptyLine(l: Loaded, files: imap<Str, Str>)
    ensures Add(l, [], files) == l
  {
  }

  /** The next uid is above every uid loaded exactly if no user has the last 32-bit uid: after
      that one the counter wraps to zero. */
  lemma NextIsAboveIff(list: Str, files: imap<Str, Str>)
    ensures var l := Loading(list, files);
      (forall u <- l.us :: u.uid < l.next) <==> (forall u <- l.us :: u.uid != WORD_LIMIT - 1)
  {
    NextAbove(NOBODY, Lines(list[..Min(|list|, LIST_CAP - 1)]), files);
  }

  lemma {:induction false} NextAbove(l: Loaded, lines: seq<Str>, files: imap<Str, Str>)
    requires (forall u <- l.us :: u.uid != WORD_LIMIT - 1) ==> forall u <- l.us :: u.uid < l.next
    ensures var m := AddAll(l, lines, files);
      (forall u <- m.us :: u.uid != WORD_LIMIT - 1) ==> forall u <- m.us :: u.uid < m.next
    decreases |lines|
  {
    hide Parsed, WithPassword;
    if lines != [] {
      NextAboveOne(l, lines[0], files);
      NextAbove(Add(l, lines[0], files), lines[1..], files);
    }
  }

  lemma NextAboveOne(l: Loaded, line: Str, files: imap<Str, Str>)
    requires (forall u <- l.us :: u.uid != WORD_LIMIT - 1) ==> forall u <- l.us :: u.uid < l.next
    ensures var m := Add(l, line, files);
      (forall u <- m.us :: u.uid != WORD_LIMIT - 1) ==> forall u <- m.us :: u.uid < m.next
  {
    hide Parsed;
    var m := Add(l, line, files);
    if m != l {
      var u := Parsed(line).value;
      SameUid(u, files);
      assert forall v :: v in m.us <==> v in l.us || v == WithPassword(u, files);
    }
  }

  lemma SameUid(u: User, files: imap<Str, Str>)
    ensures WithPassword(u, files).uid == u.uid
  {
  }
}
