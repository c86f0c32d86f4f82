/** The table of accounts (kernel/fs/user.c): the loops that read it back, and a restart. */
module AccountTable {
  import opened WfsLayout
  import opened Accounts
  import opened AccountFiles
  import Vo = WfsVolume
  import D = WfsDriver
  import P = WfsPaths
  import V = WfsView
  import R = WfsRuns
  import T = WfsTree
  import C = WfsRecords
  import S = FileSpec

  /** parse_u64, moving the cursor past the digits. */
  method ParseU64(s: Str, at: nat) returns (v: Long, at': nat)
    requires at <= |s|
    ensures v == Number(s[at..]) && at <= at' <= |s| && s[at'..] == AfterDigits(s[at..])
  {
    hide Reading, Number, AfterDigits;
    v, at' := 0, at;
    ghost var tail := s[at..];
    NoDigits(tail);
    while at' < |s| && IsDigit(s[at'])
      invariant at <= at' <= |s| && Reading(tail, at' - at, v)
    {
      assert s[at'] == tail[at' - at];
      ReadingOn(tail, at' - at, v);
      v := (v * 10 + (s[at'] - ZERO)) % LIMIT64;
      at' := at' + 1;
    }
    assert at' < |s| ==> s[at'] == tail[at' - at];
    ReadingEnds(tail, at' - at, v);
    assert s[at'..] == tail[at' - at..];
  }

  /** The first `n` digits have been read, and come to `v`. */
  ghost predicate Reading(s: Str, n: int, v: int)
  {
    Front(s, n) && v == Value(s[..n]) % LIMIT64 && DigitRun(s) == n + DigitRun(s[n..])
  }

  lemma ReadingOn(s: Str, n: nat, v: Long)
    requires Reading(s, n, v) && n < |s| && IsDigit(s[n])
    ensures Reading(s, n + 1, (v * 10 + (s[n] - ZERO)) % LIMIT64)
  {
    hide Value, DigitRun;
    DigitNext(s, n);
    Wrapped(Value(s[..n]), s[n] - ZERO);
  }

  lemma ReadingEnds(s: Str, n: nat, v: Long)
    requires Reading(s, n, v) && n <= |s| && (n < |s| ==> !IsDigit(s[n]))
    ensures v == Number(s) && s[n..] == AfterDigits(s)
  {
    hide Value, DigitRun;
    DigitsEnd(s[n..]);
  }

  ghost predicate Front(s: Str, n: int) { 0 <= n <= |s| && forall b <- s[..n] :: IsDigit(b) }

  lemma NoDigits(s: Str)
    ensures Reading(s, 0, 0)
  {
    assert s[0..] == s;
  }

  lemma DigitNext(s: Str, n: nat)
    requires Front(s, n) && n < |s| && IsDigit(s[n])
    ensures Front(s, n + 1) && Value(s[..n + 1]) == Value(s[..n]) * 10 + (s[n] - ZERO)
    ensures DigitRun(s[n..]) == 1 + DigitRun(s[n + 1..])
  {
    assert s[..n + 1] == s[..n] + [s[n]] && s[n..][1..] == s[n + 1..];
    ValueSnoc(s[..n], s[n]);
  }

  lemma DigitsEnd(s: Str)
    requires s == [] || !IsDigit(s[0])
    ensures DigitRun(s) == 0
  {
  }

  lemma ValueSnoc(d: Str, b: Byte)
    requires (forall c <- d :: IsDigit(c)) && IsDigit(b)
    ensures forall c <- d + [b] :: IsDigit(c)
    ensures Value(d + [b]) == Value(d) * 10 + (b - ZERO)
  {
    assert (d + [b])[..|d|] == d;
  }

  /** Keeping to 64 bits at each digit is keeping to 64 bits at the end. */
  lemma Wrapped(x: nat, d: nat)
    ensures (x % LIMIT64 * 10 + d) % LIMIT64 == (x * 10 + d) % LIMIT64
  {
    var q, r := x / LIMIT64, x % LIMIT64;
    assert x * 10 + d == r * 10 + d + (q * 10) * LIMIT64;
    ModPlus(r * 10 + d, q * 10);
  }

  lemma {:induction false} ModPlus(a: nat, k: nat)
    ensures (a + k * LIMIT64) % LIMIT64 == a % LIMIT64
    decreases k
  {
    if k > 0 {
      ModPlus(a, k - 1);
      var b := a + (k - 1) * LIMIT64;
      assert a + k * LIMIT64 == b + LIMIT64;
    }
  }

  method TakeName(s: Str) returns (n: nat)
    ensures n == NameLen(s, NAME_LEN)
  {
    hide NameLen;
    n := 0;
    assert s[0..] == s;
    while n < |s| && s[n] != COLON && n < NAME_LEN
      invariant n <= |s| && n <= NAME_LEN && NameLen(s, NAME_LEN) == n + NameLen(s[n..], NAME_LEN - n)
    {
      NameStep(s[n..], NAME_LEN - n);
      assert s[n..][1..] == s[n + 1..];
      n := n + 1;
    }
    NameStep(s[n..], NAME_LEN - n);
  }

  lemma NameStep(s: Str, most: nat)
    ensures NameLen(s, most) == if s == [] || s[0] == COLON || most == 0 then 0 else 1 + NameLen(s[1..], most - 1)
  {
  }

  lemma ShellStep(s: Str, most: nat)
    ensures ShellLen(s, most) == if s == [] || s[0] == NEWLINE || most == 0 then 0 else 1 + ShellLen(s[1..], most - 1)
    ensures ShellLen(s, most) <= |s|
  {
  }

  method TakeShell(s: Str, at: nat) returns (shell: Str)
    requires at <= |s|
    ensures shell == s[at..][..ShellLen(s[at..], SHELL_MAX)]
  {
    hide ShellLen;
    var n: nat := 0;
    ShellStep(s[at..], SHELL_MAX);
    while at + n < |s| && s[at + n] != NEWLINE && n < SHELL_MAX
      invariant at + n <= |s| && n <= SHELL_MAX
        && ShellLen(s[at..], SHELL_MAX) == n + ShellLen(s[at + n..], SHELL_MAX - n)
    {
      ShellStep(s[at + n..], SHELL_MAX - n);
      assert s[at + n..][1..] == s[at + n + 1..];
      n := n + 1;
    }
    ShellStep(s[at + n..], SHELL_MAX - n);
    shell := s[at..][..n];
  }

  /** The first half of parse_list_line. */
  method ParseLine(line: Str) returns (e: Option<User>)
    ensures e == Parsed(line)
  {
    hide Number, AfterDigits, NameLen, ShellLen;
    var n := TakeName(line);
    NameFits(line);
    if n == |line| || line[n] != COLON || n == 0 {
      return None;
    }
    assert line[n..][1..] == line[n + 1..];
    var uid, at := ParseU64(line, n + 1);
    if at == |line| || line[at] != COLON {
      return None;
    }
    assert line[at..][1..] == line[at + 1..];
    var roles, at' := ParseU64(line, at + 1);
    var shell := [];
    if at' < |line| && line[at'] == COLON {
      assert line[at'..][1..] == line[at' + 1..];
      shell := TakeShell(line, at' + 1);
    }
    e := Some(User(line[..n], uid % WORD_LIMIT, roles % WORD_LIMIT, shell, 0, 0));
  }

  lemma NameFits(s: Str)
    ensures NameLen(s, NAME_LEN) <= |s|
  {
  }

  lemma NoPassword(u: User, files: imap<Str, Str>)
    requires u.name !in files
    ensures WithPassword(u.(salt := 0, hash := 0), files) == u.(salt := 0, hash := 0)
  {
  }

  /** The list of accounts on a volume, empty when there is none, and everybody's password file. */
  function ListIn(v: Vo.Vol): Str { if Found(v, LIST_FILE) then TextAt(v, LIST_FILE) else [] }

  ghost function Passwords(v: Vo.Vol): imap<Str, Str>
  {
    imap n: Str | Found(v, PasswordPath(n)) :: TextAt(v, PasswordPath(n))
  }

  class Database {
    const w: D.Wfs
    var slots: Table
    var nextUid: Word

    constructor (w: D.Wfs)
      ensures this.w == w
    {
      this.w := w;
      slots, nextUid := seq(MAX_USERS, k => None), 1;
    }

    /** save_user_list.  `name` is any account whose password may be saved next. */
    method SaveList(now: nat, ghost name: Str) returns (r: D.Result<()>)
      requires AllSized(slots) && R.Fine(w) && ListIsFile(V.AbsOf(w.V()))
      requires PlainName(name) && |name| <= NAME_LEN && Safe(V.AbsOf(w.V()), name)
      modifies w
      ensures R.Fine(w) && Safe(V.AbsOf(w.V()), name) && ListIsFile(V.AbsOf(w.V()))
      ensures OthersKept(V.AbsOf(old(w.V())), V.AbsOf(w.V()), [])
      ensures r.Ok? ==> ListIn(w.V()) == ListText(slots) && Holds(V.AbsOf(w.V()), LIST_FILE, ListText(slots))
      ensures r.Err? ==>
        Full(r.error) || (r == D.Err(D.ENOTDIR) && S.LookUp(V.AbsOf(old(w.V())), LIST_FILE) == D.Err(D.ENOTDIR))
      ensures S.LookUp(V.AbsOf(old(w.V())), CONFIG_DIR).Ok? ==> SamePasswords(V.AbsOf(old(w.V())), V.AbsOf(w.V()))
      ensures |ListText(slots)| <= MAX_FILE_SIZE && (r.Ok? <==> ListFits(old(w.V()), |ListText(slots)|))
    {
      hide ListText, V.AbsOf, Safe, SamePasswords, S.LookUp, OthersKept, R.Fine, ListIsFile, Full, Holds, Found, TextAt,
        ListFits;
      var text := ListBytes(slots);
      r := SaveListText(w, text, now, name);
      if r.Ok? {
        FineIsTree(w);
        HoldsIs(w.V(), LIST_FILE, text);
      }
    }

    /** save_password. */
    method SavePassword(u: User, now: nat) returns (r: D.Result<()>)
      requires R.Fine(w) && |u.name| <= NAME_LEN && 0 !in u.name && Safe(V.AbsOf(w.V()), u.name)
      modifies w
      ensures R.Fine(w)
      ensures r.Ok? ==>
        Reachable(V.AbsOf(old(w.V())), u.name) && Holds(V.AbsOf(w.V()), PasswordPath(u.name), PasswordText(u))
      ensures r.Ok? ==> u.name in Passwords(w.V()) && Passwords(w.V())[u.name] == PasswordText(u)
      ensures r.Err? ==> !Reachable(V.AbsOf(old(w.V())), u.name) || Full(r.error)
      ensures !Reachable(V.AbsOf(old(w.V())), u.name) ==> u.name !in Passwords(w.V())
      ensures PlainName(u.name) ==> OnlyFor(V.AbsOf(old(w.V())), V.AbsOf(w.V()), u.name)
      ensures |PasswordText(u)| <= MAX_FILE_SIZE
      ensures r.Ok? <==> Reachable(V.AbsOf(old(w.V())), u.name) && SaveFits(old(w.V()), u.name, |PasswordText(u)|)
    {
      hide V.AbsOf, Safe, S.LookUp, PasswordText, Reachable, OnlyFor, PasswordPath, SaveFits;
      var text := PasswordBytes(u);
      r := SaveText(w, u.name, text, now);
      if r.Ok? { HoldsIs(w.V(), PasswordPath(u.name), text); } else { FoundIs(w.V(), PasswordPath(u.name)); }
    }

    /** A password saved and loaded.  It is saved exactly if there can be a file for it and there is
        room, and then it comes back; where there can be none, only no password does. */
    method PasswordRoundTrip(u: User, now: nat) returns (r: D.Result<()>, e: User)
      requires R.Fine(w) && |u.name| <= NAME_LEN && 0 !in u.name && Safe(V.AbsOf(w.V()), u.name)
      modifies w
      ensures R.Fine(w)
      ensures r.Err? ==> !Reachable(V.AbsOf(old(w.V())), u.name) || Full(r.error)
      ensures r.Ok? ==> e == u
      ensures !Reachable(V.AbsOf(old(w.V())), u.name) ==> r.Err? && (e == u <==> u.salt == 0 && u.hash == 0)
      ensures |PasswordText(u)| <= MAX_FILE_SIZE
      ensures r.Ok? <==> Reachable(V.AbsOf(old(w.V())), u.name) && SaveFits(old(w.V()), u.name, |PasswordText(u)|)
    {
      hide WithPassword, PasswordText, V.AbsOf, Safe, S.LookUp, Reachable, OnlyFor, PasswordPath, Passwords, SaveFits;
      r := SavePassword(u, now);
      e := LoadPassword(u.(salt := 0, hash := 0));
      if FileMatches(u, Passwords(w.V())) {
        PasswordReads(u, Passwords(w.V()));
      } else if u.name !in Passwords(w.V()) {
        NoPassword(u, Passwords(w.V()));
      }
    }

    /** load_password. */
    method LoadPassword(u: User) returns (e: User)
      requires R.Fine(w)
      modifies w
      ensures R.Fine(w) && w.V() == old(w.V())
      ensures e == WithPassword(u, Passwords(w.V()))
    {
      hide Number, AfterDigits, Found, TextAt, PasswordPath, R.Fine;
      e := u.(salt := 0, hash := 0);
      var found, text := ReadFront(w, PasswordPath(u.name), PASSWORD_CAP - 1);
      assert text[0..] == text;
      NothingToRead();
      if |text| == 0 {
        return;
      }
      var salt, at := ParseU64(text, 0);
      e := e.(salt := salt);
      if at < |text| && text[at] == COLON {
        assert text[at..][1..] == text[at + 1..];
        var hash, _ := ParseU64(text, at + 1);
        e := e.(hash := hash);
      }
    }

    /** The second half of parse_list_line: the first free slot, the password, the next uid. */
    method AddUser(u: User, ghost us: seq<User>)
      requires R.Fine(w) && |us| <= MAX_USERS && slots == TableOf(us)
      modifies `slots, `nextUid, w
      ensures R.Fine(w) && w.V() == old(w.V())
      ensures |us| >= MAX_USERS ==> slots == old(slots) && nextUid == old(nextUid)
      ensures |us| < MAX_USERS ==>
        slots == TableOf(us + [WithPassword(u, Passwords(w.V()))])
        && nextUid == if u.uid >= old(nextUid) then (u.uid + 1) % WORD_LIMIT else old(nextUid)
    {
      hide WithPassword, Passwords, R.Fine;
      for i := 0 to MAX_USERS
        invariant R.Fine(w) && w.V() == old(w.V()) && i <= |us| && slots == old(slots) && nextUid == old(nextUid)
      {
        if slots[i].None? {
          assert i == |us|;
          var e := LoadPassword(u);
          slots := slots[i := Some(e)];
          assert slots == TableOf(us + [e]);
          if u.uid >= nextUid { nextUid := (u.uid + 1) % WORD_LIMIT; }
          return;
        }
      }
    }

    /** One line of the list. */
    method AddLine(line: Str, ghost l: Loaded)
      requires R.Fine(w) && |l.us| <= MAX_USERS && slots == TableOf(l.us) && nextUid == l.next
      modifies `slots, `nextUid, w
      ensures R.Fine(w) && w.V() == old(w.V())
      ensures var m := Add(l, line, Passwords(w.V()));
        |m.us| <= MAX_USERS && slots == TableOf(m.us) && nextUid == m.next
    {
      hide Parsed, TableOf, WithPassword, Passwords, R.Fine;
      var e := ParseLine(line);
      if e.Some? { AddUser(e.value, l.us); }
    }

    /** The loop over the text: a line ends at a newline, a zero byte, or the end. */
    method ReadLines(text: Str)
      requires R.Fine(w) && slots == TableOf([]) && nextUid == 1
      modifies `slots, `nextUid, w
      ensures R.Fine(w) && w.V() == old(w.V())
      ensures var l := AddAll(NOBODY, Lines(text), Passwords(w.V()));
        |l.us| <= MAX_USERS && slots == TableOf(l.us) && nextUid == l.next
    {
      hide TableOf, Add, LineLen, Passwords, R.Fine;
      ghost var passwords := Passwords(w.V());
      ghost var l := NOBODY;
      var start, i := 0, 0;
      assert text[0..] == text;
      LineRunStart(text, 0);
      while i < |text|
        invariant 0 <= start <= i <= |text| && |l.us| <= MAX_USERS && slots == TableOf(l.us) && nextUid == l.next
        invariant LineRun(text, start, i) && R.Fine(w) && w.V() == old(w.V())
        invariant AddAll(NOBODY, Lines(text), passwords) == AddAll(l, Lines(text[start..]), passwords)
      {
        if IsEnd(text[i]) {
          LineEnds(text, start, i);
          ghost var rest := Lines(text[i + 1..]);
          assert ([text[start..i]] + rest)[1..] == rest;
          if start < i {
            AddLine(text[start..i], l);
          } else {
            assert text[start..i] == [];
            EmptyLine(l, passwords);
          }
          l := Add(l, text[start..i], passwords);
          start := i + 1;
          LineRunStart(text, start);
        } else {
          LineRunOn(text, start, i);
        }
        i := i + 1;
      }
      LastLine(text, start);
      if start < |text| {
        AddLine(text[start..], l);
      } else {
        assert text[start..] == [];
        EmptyLine(l, passwords);
      }
      assert AddAll(l, [text[start..]], passwords) == AddAll(Add(l, text[start..], passwords), [text[start..]][1..],
        passwords);
    }

    /** find_by_uid for root. */
    method HasRootUser(ghost us: seq<User>) returns (b: bool)
      requires |us| <= MAX_USERS && slots == TableOf(us)
      ensures b == HasRoot(us)
    {
      for i := 0 to MAX_USERS
        invariant forall k :: 0 <= k < i && k < |us| ==> us[k].uid != ROOT_UID
      {
        if slots[i].Some? && slots[i].value.uid == ROOT_UID {
          assert us[i].uid == ROOT_UID;
          return true;
        }
      }
      return false;
    }

    /** user_init.  Without a root in the list, slot 0 becomes root: whoever was there is gone
        but for the shell, and the list on disk is written over. */
    method Init(salt: Long, hash: Long, now: nat) returns (listed: D.Result<()>, kept: D.Result<()>)
      requires R.Fine(w) && ListIsFile(V.AbsOf(w.V())) && Safe(V.AbsOf(w.V()), ROOT_NAME)
      modifies this, w
      ensures R.Fine(w)
      ensures var l := Loading(ListIn(old(w.V())), Passwords(old(w.V())));
        && |l.us| <= MAX_USERS && nextUid == l.next
        && (HasRoot(l.us) ==> slots == TableOf(l.us) && w.V() == old(w.V()))
        && (!HasRoot(l.us) ==>
              && slots == TableOf(l.us)[0 := Some(MadeRoot(l.us, salt, hash))]
              && (listed.Ok? ==> ListIn(w.V()) == ListText(slots))
              && |ListText(slots)| <= MAX_FILE_SIZE && (listed.Ok? <==> ListFits(old(w.V()), |ListText(slots)|))
              && OthersKept(V.AbsOf(old(w.V())), V.AbsOf(w.V()), ROOT_NAME)
              && (kept.Ok? ==> ROOT_NAME in Passwords(w.V()))
              && (kept.Ok? ==> Passwords(w.V())[ROOT_NAME] == PasswordText(MadeRoot(l.us, salt, hash))))
    {
      hide TableOf, Add, LineLen, Lines, HasRoot, ListText, PasswordText, V.AbsOf, Safe, S.LookUp, Passwords, OnlyFor;
      hide Reachable, P.LookupPath, Vo.Contents, SamePasswords, R.Fine, OthersKept, ListFits, SaveFits;
      listed, kept := D.Ok(()), D.Ok(());
      slots, nextUid := seq(MAX_USERS, k => None), 1;
      NoneUsed();
      ghost var v := w.V();
      ghost var l := Loading(ListIn(v), Passwords(v));
      var _, list := ReadFront(w, LIST_FILE, LIST_CAP - 1);
      if |list| > 0 {
        ReadLines(list);
      } else {
        NothingListed(ListIn(v), Passwords(v));
      }
      var found := HasRootUser(l.us);
      if !found {
        SlotZero(l.us);
        LoadedSized(ListIn(v), Passwords(v));
        var root := User(ROOT_NAME, ROOT_UID, 0, if slots[0].Some? then slots[0].value.shell else [], salt, hash);
        slots := slots[0 := Some(root)];
        TableSized(l.us, root);
        RootIsPlain();
        listed := SaveList(now, ROOT_NAME);
        ghost var fs := V.AbsOf(w.V());
        kept := SavePassword(root, now);
        OnlyIsKept(fs, V.AbsOf(w.V()), ROOT_NAME);
        KeptTrans(V.AbsOf(v), fs, V.AbsOf(w.V()), ROOT_NAME);
        FineIsTree(w);
        if listed.Ok? { ListSurvives(fs, w.V(), ListText(slots)); }
      }
    }

    /** Saving the list and starting again.  With room for the list it is saved, and then the table
        comes back the same, gaps closed, exactly if root is in it; and new uids are above every
        old one exactly if none is the last. */
    method Restart(salt: Long, hash: Long, now: nat) returns (saved: D.Result<()>)
      requires R.Fine(w) && ListIsFile(V.AbsOf(w.V())) && Safe(V.AbsOf(w.V()), ROOT_NAME)
      requires S.LookUp(V.AbsOf(w.V()), CONFIG_DIR).Ok?
      requires forall k :: 0 <= k < |slots| && slots[k].Some? ==> Sayable(slots[k].value)
      requires forall k :: 0 <= k < |slots| && slots[k].Some? ==> Stands(slots[k].value, w.V())
      modifies this, w
      ensures R.Fine(w) && |Used(old(slots))| <= MAX_USERS
      ensures |ListText(old(slots))| <= MAX_FILE_SIZE
      ensures saved.Ok? <==> ListFits(old(w.V()), |ListText(old(slots))|)
      ensures saved.Ok? ==>
        && (slots == TableOf(Used(old(slots))) <==> HasRoot(Used(old(slots))))
        && (HasRoot(Used(old(slots))) ==>
              ListIn(w.V()) == ListText(old(slots)) && SamePasswords(V.AbsOf(old(w.V())), V.AbsOf(w.V())))
        && ((forall u <- Used(old(slots)) :: u.uid < nextUid)
          <==> (forall u <- Used(old(slots)) :: u.uid != WORD_LIMIT - 1))
      ensures saved.Err? ==> Full(saved.error) || !ListDir(old(w.V()))
    {
      hide FileMatches, Sayable, TableOf, ListText, Loading, HasRoot, Used, V.AbsOf, Safe, S.LookUp, Passwords,
        SamePasswords, ListFits, ListDir;
      ghost var us, v, t := Used(slots), w.V(), slots;
      UsedFew(slots);
      AllSayableSized(slots);
      RootIsPlain();
      saved := SaveList(now, ROOT_NAME);
      FileNotDir(v);
      ghost var v' := w.V();
      var _, _ := Init(salt, hash, now);
      if saved.Ok? {
        AllStand(t, v, v');
        ListRoundTrip(t, Passwords(v'));
        NextIsAboveIff(ListText(t), Passwords(v'));
        if !HasRoot(us) { RootIsNew(us, MadeRoot(us, salt, hash)); }
      }
    }
  }

  /** The directory of the accounts is one. */
  ghost predicate ListDir(v: Vo.Vol)
  {
    var c := S.LookUp(V.AbsOf(v), CONFIG_DIR);
    c.Ok? && S.IsDirAt(V.AbsOf(v), c.value)
  }

  lemma FileNotDir(v: Vo.Vol)
    ensures S.LookUp(V.AbsOf(v), CONFIG_DIR).Ok? && S.LookUp(V.AbsOf(v), LIST_FILE) == D.Err(D.ENOTDIR) ==> !ListDir(v)
  {
    hide V.AbsOf, S.LookUp;
    if S.LookUp(V.AbsOf(v), CONFIG_DIR).Ok? { ListWay(V.AbsOf(v)); }
  }

  /** An account whose password on disk, if it has any, is the one in the table. */
  ghost predicate Stands(u: User, v: Vo.Vol)
  {
    && FileMatches(u, Passwords(v))
    && (S.LookUp(V.AbsOf(v), PasswordPath(u.name)).Ok? ==>
      S.LookUp(V.AbsOf(v), PasswordPath(u.name)).value in V.FilesOf(v))
  }

  /** It still does on a volume with the same passwords. */
  lemma AllStand(t: Table, v: Vo.Vol, v': Vo.Vol)
    requires T.IsTree(C.TreeOf(v)) && T.IsTree(C.TreeOf(v')) && SamePasswords(V.AbsOf(v), V.AbsOf(v'))
    requires forall k :: 0 <= k < |t| && t[k].Some? ==> Sayable(t[k].value) && Stands(t[k].value, v)
    ensures forall k :: 0 <= k < |t| && t[k].Some? ==> FileMatches(t[k].value, Passwords(v'))
  {
    hide C.TreeOf, T.IsTree, V.AbsOf, V.FilesOf, S.LookUp, Found, TextAt, PasswordText, SameFile;
    forall k | 0 <= k < |t| && t[k].Some? ensures FileMatches(t[k].value, Passwords(v')) {
      var n := t[k].value.name;
      assert SameFile(V.AbsOf(v), V.AbsOf(v'), PasswordPath(n));
      SameOnVolume(v, v', PasswordPath(n));
    }
  }

  lemma ListSurvives(fs: S.Fs, v': Vo.Vol, text: Str)
    requires Holds(fs, LIST_FILE, text) && OnlyFor(fs, V.AbsOf(v'), ROOT_NAME) && T.IsTree(C.TreeOf(v'))
    ensures ListIn(v') == text
  {
    hide C.TreeOf, T.IsTree, V.AbsOf, Found, TextAt, PasswordPath;
    assert SameText(fs, V.AbsOf(v'), LIST_FILE);
    assert Holds(V.AbsOf(v'), LIST_FILE, text);
    HoldsIs(v', LIST_FILE, text);
  }

  lemma FineIsTree(w: D.Wfs)
    requires R.Fine(w)
    ensures T.IsTree(C.TreeOf(w.V()))
  {
  }

  lemma RootIsPlain()
    ensures PlainName(ROOT_NAME) && 0 !in ROOT_NAME && |ROOT_NAME| <= NAME_LEN
  {
  }

  lemma {:induction false} UsedFew(t: seq<Option<User>>)
    ensures |Used(t)| <= |t|
  {
    if t != [] { UsedFew(t[..|t| - 1]); }
  }

  ghost predicate AllSized(t: Table) { forall k :: 0 <= k < |t| && t[k].Some? ==> Sized(t[k].value) }

  function MadeRoot(us: seq<User>, salt: Long, hash: Long): User
  {
    User(ROOT_NAME, ROOT_UID, 0, if us != [] then us[0].shell else [], salt, hash)
  }

  lemma NothingToRead()
    ensures Number([]) == 0 && AfterDigits([]) == []
  {
  }

  /* ---- the loop over the text ---- */

  /** No line ends between `start` and `i`. */
  ghost predicate LineRun(text: Str, start: nat, i: nat)
    requires start <= i <= |text|
  {
    LineLen(text[start..]) == i - start + LineLen(text[i..])
  }

  lemma LineRunStart(text: Str, start: nat)
    requires start <= |text|
    ensures LineRun(text, start, start)
  {
  }

  lemma LineRunOn(text: Str, start: nat, i: nat)
    requires start <= i < |text| && LineRun(text, start, i) && !IsEnd(text[i])
    ensures LineRun(text, start, i + 1)
  {
    assert text[i..][1..] == text[i + 1..];
  }

  lemma LineEnds(text: Str, start: nat, i: nat)
    requires start <= i < |text| && LineRun(text, start, i) && IsEnd(text[i])
    ensures Lines(text[start..]) == [text[start..i]] + Lines(text[i + 1..])
  {
    assert LineLen(text[i..]) == 0;
    assert text[start..][..i - start] == text[start..i] && text[start..][i - start + 1..] == text[i + 1..];
  }

  lemma LastLine(text: Str, start: nat)
    requires start <= |text| && LineRun(text, start, |text|)
    ensures Lines(text[start..]) == [text[start..]]
  {
    assert text[|text|..] == [];
  }

  lemma NoneUsed()
    ensures seq(MAX_USERS, k => None) == TableOf([])
  {
  }

  lemma NothingListed(list: Str, files: imap<Str, Str>)
    requires list == []
    ensures Loading(list, files) == NOBODY
  {
    assert list[..Min(|list|, LIST_CAP - 1)] == [];
    OneLine([]);
    EmptyLine(NOBODY, files);
    assert AddAll(NOBODY, [[]], files) == AddAll(Add(NOBODY, [], files), [[]][1..], files);
  }

  lemma SlotZero(us: seq<User>)
    requires |us| <= MAX_USERS
    ensures TableOf(us)[0] == if us == [] then None else Some(us[0])
  {
  }

  /* ---- sizes ---- */

  lemma AllSayableSized(t: Table)
    requires forall k :: 0 <= k < |t| && t[k].Some? ==> Sayable(t[k].value)
    ensures AllSized(t)
  {
  }

  lemma LoadedSized(list: Str, files: imap<Str, Str>)
    ensures forall u <- Loading(list, files).us :: Sized(u)
  {
    AddedSized(NOBODY, Lines(list[..Min(|list|, LIST_CAP - 1)]), files);
  }

  /** A line that parses gives an entry its arrays can hold. */
  lemma ParsedSized(line: Str)
    ensures Parsed(line).Some? ==> Sized(Parsed(line).value)
  {
    hide Number, AfterDigits;
  }

  lemma {:induction false} AddedSized(l: Loaded, lines: seq<Str>, files: imap<Str, Str>)
    requires forall u <- l.us :: Sized(u)
    ensures forall u <- AddAll(l, lines, files).us :: Sized(u)
    decreases |lines|
  {
    hide Parsed;
    if lines != [] {
      ParsedSized(lines[0]);
      AddedSized(Add(l, lines[0], files), lines[1..], files);
    }
  }

  lemma TableSized(us: seq<User>, root: User)
    requires |us| <= MAX_USERS && (forall u <- us :: Sized(u)) && root.name == ROOT_NAME
    requires root.shell == if us == [] then [] else us[0].shell
    ensures AllSized(TableOf(us)[0 := Some(root)])
  {
    assert us != [] ==> us[0] in us;
  }

  lemma RootIsNew(us: seq<User>, root: User)
    requires |us| <= MAX_USERS && !HasRoot(us) && root.uid == ROOT_UID
    ensures TableOf(us)[0 := Some(root)] != TableOf(us)
  {
    var t := TableOf(us)[0 := Some(root)];
    assert t[0] == Some(root);
    assert TableOf(us)[0] == if us == [] then None else Some(us[0]);
  }
}
