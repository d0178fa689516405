/** Configuration backups: their names, which sort by time, and the rotation that keeps the newest
    (internal/config/backup.go). */
module Backups {
  import opened Numerals
  import opened Order
  import opened Wrappers

  const KEEP: nat := 10
  const NUMBERS: nat := 1000

  type Ordinal = n: nat | n < 1000

  datatype Kind = Plain | Hand | FirstHand

  /** A configuration backup: when it was made, which of its second it was, and what it holds. */
  datatype Backup = Backup(stamp: string, number: Ordinal, kind: Kind, data: string)

  /** What a backup of the current file comes to: there is no file, no name is free, or the name of the copy. */
  datatype Outcome = NothingThere | NoFreeName | Saved(name: string)

  /** The configuration file at the time of a backup. */
  datatype Current = Missing | Canonical(data: string) | HandEdited(data: string)

  /** The time format 20060102T150405Z. */
  predicate IsStamp(s: string) {
    |s| == 16 && s[8] == 'T' && s[15] == 'Z' && forall i | 0 <= i < 15 && i != 8 :: IsDigitChar(s[i])
  }

  /** `%03d` below one thousand. */
  function Pad(n: nat): (s: string)
    requires n < NUMBERS
    ensures |s| == 3
  {
    [DigitChar(n / 100), DigitChar(n / 10 % 10), DigitChar(n % 10)]
  }

  /** `strconv.Atoi` of three characters. */
  function Number(s: string): Option<int>
    requires |s| == 3
  {
    if IsDigitChar(s[0]) && IsDigitChar(s[1]) && IsDigitChar(s[2]) then
      Some((s[0] as int - 48) * 100 + (s[1] as int - 48) * 10 + (s[2] as int - 48))
    else if (s[0] == '+' || s[0] == '-') && IsDigitChar(s[1]) && IsDigitChar(s[2]) then
      var n := (s[1] as int - 48) * 10 + (s[2] as int - 48);
      Some(if s[0] == '-' then -n else n)
    else None
  }

  lemma Digits(n: nat)
    requires n < NUMBERS
    ensures n == n / 100 * 100 + n / 10 % 10 * 10 + n % 10
  {
  }

  lemma PadIsRead(n: nat)
    requires n < NUMBERS
    ensures Number(Pad(n)) == Some(n)
  {
    Digits(n);
  }

  lemma LessByDigit(a: string, b: string)
    requires |a| == 3 && |b| == 3
    requires a[0] < b[0] || (a[0] == b[0] && (a[1] < b[1] || (a[1] == b[1] && a[2] < b[2])))
    ensures Less(a, b)
  {
    if a[0] == b[0] {
      assert a[1..][0] == a[1] && b[1..][0] == b[1];
      if a[1] == b[1] { assert Less(a[1..][1..], b[1..][1..]); }
    }
  }

  lemma PadAscends(m: nat, n: nat)
    requires m < n < NUMBERS
    ensures Less(Pad(m), Pad(n))
  {
    Digits(m);
    Digits(n);
    LessByDigit(Pad(m), Pad(n));
  }

  function Name(prefix: string, stamp: string, n: Ordinal, suffix: string): string {
    prefix + ("-" + stamp + "-") + (Pad(n) + suffix)
  }

  function PrefixOf(kind: Kind): string { if kind == FirstHand then "config-first-hand" else "config" }

  function SuffixOf(kind: Kind): string { if kind == Hand then "-hand.yaml" else ".yaml" }

  function NameOf(b: Backup): string { Name(PrefixOf(b.kind), b.stamp, b.number, SuffixOf(b.kind)) }

  // ---------------------------------------------------------------- the order of names

  lemma {:induction false} LessAfterPrefix(p: string, a: string, b: string)
    requires Less(a, b)
    ensures Less(p + a, p + b)
  {
    if p == [] {
      assert p + a == a && p + b == b;
    } else {
      LessAfterPrefix(p[1..], a, b);
      assert (p + a)[1..] == p[1..] + a && (p + b)[1..] == p[1..] + b;
    }
  }

  lemma {:induction false} LessBeforeSuffix(a: string, b: string, x: string, y: string)
    requires Less(a, b) && |a| == |b|
    ensures Less(a + x, b + y)
  {
    if a[0] == b[0] {
      LessBeforeSuffix(a[1..], b[1..], x, y);
      assert (a + x)[1..] == a[1..] + x && (b + y)[1..] == b[1..] + y;
    }
  }

  /** Made earlier: in an earlier second, or with a lower number in the same one. */
  predicate Earlier(a: Backup, b: Backup) {
    Less(a.stamp, b.stamp) || (a.stamp == b.stamp && a.number < b.number)
  }

  lemma EarlierIsTransitive(a: Backup, b: Backup, c: Backup)
    requires Earlier(a, b) && Earlier(b, c)
    ensures Earlier(a, c)
  {
    if Less(a.stamp, b.stamp) && Less(b.stamp, c.stamp) { LessIsTransitive(a.stamp, b.stamp, c.stamp); }
  }

  lemma NameParts(prefix: string, stamp: string, n: Ordinal, suffix: string)
    ensures Name(prefix, stamp, n, suffix) == (prefix + "-") + (stamp + ("-" + Pad(n) + suffix))
    ensures Name(prefix, stamp, n, suffix) == (prefix + "-" + stamp + "-") + (Pad(n) + suffix)
  {
  }

  /** What sorts as a name sorts by time, whatever the kinds under one prefix. */
  lemma NamesSortByTime(a: Backup, b: Backup)
    requires IsStamp(a.stamp) && IsStamp(b.stamp) && Earlier(a, b) && PrefixOf(a.kind) == PrefixOf(b.kind)
    ensures Less(NameOf(a), NameOf(b))
  {
    var prefix := PrefixOf(a.kind);
    NameParts(prefix, a.stamp, a.number, SuffixOf(a.kind));
    NameParts(prefix, b.stamp, b.number, SuffixOf(b.kind));
    LessIsIrreflexive(a.stamp);
    if a.stamp == b.stamp {
      PadAscends(a.number, b.number);
      LessBeforeSuffix(Pad(a.number), Pad(b.number), SuffixOf(a.kind), SuffixOf(b.kind));
      LessAfterPrefix(prefix + "-" + a.stamp + "-", Pad(a.number) + SuffixOf(a.kind), Pad(b.number) + SuffixOf(b.kind));
    } else {
      var x, y := "-" + Pad(a.number) + SuffixOf(a.kind), "-" + Pad(b.number) + SuffixOf(b.kind);
      LessBeforeSuffix(a.stamp, b.stamp, x, y);
      LessAfterPrefix(prefix + "-", a.stamp + x, b.stamp + y);
    }
  }

  /** Only the first version edited by hand sorts out of order: after every other backup, whenever it was made. */
  lemma FirstHandSortsLast(a: Backup, b: Backup)
    requires IsStamp(a.stamp) && IsStamp(b.stamp) && a.kind != FirstHand && b.kind == FirstHand
    ensures Less(NameOf(a), NameOf(b))
  {
    NameParts("config", a.stamp, a.number, SuffixOf(a.kind));
    var x, y := a.stamp + ("-" + Pad(a.number) + SuffixOf(a.kind)), "first-hand" + ("-" + b.stamp + "-") + (Pad(b.number) + ".yaml");
    assert x[0] == a.stamp[0] && y[0] == 'f' && IsDigitChar(a.stamp[0]);
    LessAfterPrefix("config-", x, y);
    assert "config" + "-" == "config-";
    assert "config-first-hand" == "config-" + "first-hand";
    assert NameOf(b) == "config-" + y;
  }

  // ---------------------------------------------------------------- reading a number back

  predicate At(s: string, i: nat, sub: string) { i + |sub| <= |s| && forall j | 0 <= j < |sub| :: s[i + j] == sub[j] }

  lemma AtTail(s: string, i: nat, sub: string)
    requires s != []
    ensures At(s[1..], i, sub) <==> At(s, i + 1, sub)
  {
    if At(s[1..], i, sub) {
      forall j | 0 <= j < |sub| ensures s[i + 1 + j] == sub[j] { assert s[1..][i + j] == sub[j]; }
    }
    if At(s, i + 1, sub) {
      forall j | 0 <= j < |sub| ensures s[1..][i + j] == sub[j] { assert s[i + 1 + j] == sub[j]; }
    }
  }

  lemma NotAt(s: string, i: nat, sub: string, j: nat)
    requires j < |sub| && i + j < |s| && s[i + j] != sub[j]
    ensures !At(s, i, sub)
  {
  }

  /** `strings.Cut`: what follows the first occurrence. */
  function Cut(s: string, sub: string): Option<string> {
    if At(s, 0, sub) then Some(s[|sub|..]) else if s == [] then None else Cut(s[1..], sub)
  }

  lemma {:induction false} CutFirst(a: string, sub: string, b: string)
    requires forall i | 0 <= i < |a| :: !At(a + sub + b, i, sub)
    ensures Cut(a + sub + b, sub) == Some(b)
  {
    var s := a + sub + b;
    if a == [] {
      assert s[..|sub|] == sub && s[|sub|..] == b;
    } else {
      var t := a[1..] + sub + b;
      assert s[1..] == t;
      forall i | 0 <= i < |a| - 1 ensures !At(t, i, sub) {
        assert !At(s, i + 1, sub);
        AtTail(s, i, sub);
      }
      assert !At(s, 0, sub);
      CutFirst(a[1..], sub, b);
    }
  }

  function NumberOf(name: string, stamp: string): Option<int> {
    match Cut(name, "-" + stamp + "-")
    case None => None
    case Some(rest) => if |rest| >= 3 then Number(rest[..3]) else None
  }

  /** A stamp between hyphens starts nowhere inside the prefix of a configuration backup. */
  lemma PrefixHasNoStamp(kind: Kind, stamp: string, rest: string)
    requires IsStamp(stamp)
    ensures var a, sub := PrefixOf(kind), "-" + stamp + "-";
            forall i | 0 <= i < |a| :: !At(a + sub + rest, i, sub)
  {
    var a, sub := PrefixOf(kind), "-" + stamp + "-";
    var s := a + sub + rest;
    forall i | 0 <= i < |a| ensures !At(s, i, sub) {
      assert s[i] == a[i] && sub[0] == '-' && sub[1] == stamp[0] && IsDigitChar(stamp[0]);
      assert s[i + 1] == if i + 1 < |a| then a[i + 1] else sub[0];
      NotAt(s, i, sub, if a[i] == '-' then 1 else 0);
    }
  }

  lemma NumberIsRead(b: Backup)
    requires IsStamp(b.stamp)
    ensures NumberOf(NameOf(b), b.stamp) == Some(b.number)
  {
    var a, sub, rest := PrefixOf(b.kind), "-" + b.stamp + "-", Pad(b.number) + SuffixOf(b.kind);
    PrefixHasNoStamp(b.kind, b.stamp, rest);
    CutFirst(a, sub, rest);
    assert rest[..3] == Pad(b.number);
    PadIsRead(b.number);
  }

  /** A number above those of all backups of a second. */
  predicate IsPast(files: set<string>, stamp: string, n: nat) {
    forall e | e in files && NumberOf(e, stamp).Some? :: NumberOf(e, stamp).value < n
  }

  /** The last number of a second is used. */
  predicate IsUsedUp(files: set<string>, stamp: string) { exists e | e in files :: NumberOf(e, stamp) == Some(NUMBERS - 1) }

  lemma NumberIsBounded(e: string, stamp: string)
    requires NumberOf(e, stamp).Some?
    ensures NumberOf(e, stamp).value < NUMBERS
  {
  }

  /** For configuration backups no name is left exactly when the last number of the second is used. */
  lemma NoneIsLeft(files: set<string>, stamp: string, kind: Kind)
    requires IsStamp(stamp)
    ensures IsUsedUp(files, stamp) <==>
            forall n: Ordinal | IsPast(files, stamp, n) :: Name(PrefixOf(kind), stamp, n, SuffixOf(kind)) in files
  {
    if IsUsedUp(files, stamp) {
      assert forall n: Ordinal :: !IsPast(files, stamp, n);
    } else {
      var last: Ordinal := NUMBERS - 1;
      forall e | e in files && NumberOf(e, stamp).Some? ensures NumberOf(e, stamp).value < last { NumberIsBounded(e, stamp); }
      NumberIsRead(Backup(stamp, last, kind, ""));
    }
  }

  // ---------------------------------------------------------------- rotation

  predicate HasPrefix(s: string, p: string) { |p| <= |s| && s[..|p|] == p }

  predicate HasSuffix(s: string, p: string) { |p| <= |s| && s[|s| - |p|..] == p }

  predicate IsFirstHand(name: string) { HasPrefix(name, "config-first-hand-") }

  predicate Rotates(name: string) { HasPrefix(name, "config-") && HasSuffix(name, ".yaml") && !IsFirstHand(name) }

  function Rotating(files: map<string, string>): set<string> { set n | n in files && Rotates(n) }

  /** All but the last ten names. */
  function Outdated(names: seq<string>): seq<string> { if |names| > KEEP then names[..|names| - KEEP] else [] }

  function Rotated(files: map<string, string>): map<string, string> {
    files - Elements(Outdated(Sorted(Rotating(files))))
  }

  /** The names of a set that sort after x. */
  function Later(s: set<string>, x: string): set<string> { set n | n in s && Less(x, n) }

  /** A backup outlives a rotation exactly when fewer than ten sort after it. */
  lemma SurvivesExactly(files: map<string, string>, name: string)
    requires name in files && Rotates(name)
    ensures name in Rotated(files) <==> |Later(Rotating(files), name)| < KEEP
  {
    var names := Sorted(Rotating(files));
    assert name in names;
    var i :| 0 <= i < |names| && names[i] == name;
    CountAbove(Rotating(files), names, i, name);
    OutdatedAre(names, i);
  }

  lemma CountAbove(s: set<string>, names: seq<string>, i: nat, x: string)
    requires Ascending(names) && i < |names| && names[i] == x && forall n :: n in names <==> n in s
    ensures |Later(s, x)| == |names| - i - 1
  {
    var above := names[i + 1..];
    AboveAre(names, i, above);
    assert Elements(above) == Later(s, x);
    AscendingCount(above);
  }

  lemma AboveAre(names: seq<string>, i: nat, above: seq<string>)
    requires Ascending(names) && i < |names| && above == names[i + 1..]
    ensures forall n :: n in above <==> n in names && Less(names[i], n)
  {
    forall n ensures n in above <==> n in names && Less(names[i], n) {
      if n in above {
        var j :| 0 <= j < |above| && above[j] == n;
        assert names[i + 1 + j] == n;
      }
      if n in names && Less(names[i], n) {
        var j :| 0 <= j < |names| && names[j] == n;
        NotBelow(names, j, i);
        assert above[j - i - 1] == n;
      }
    }
  }

  lemma NotBelow(names: seq<string>, j: nat, i: nat)
    requires Ascending(names) && j < |names| && i < |names|
    ensures Less(names[i], names[j]) <==> i < j
  {
    if j < i { LessIsAsymmetric(names[j], names[i]); }
    LessIsIrreflexive(names[i]);
  }

  lemma OutdatedAre(names: seq<string>, i: nat)
    requires Ascending(names) && i < |names|
    ensures names[i] in Outdated(names) <==> i + KEEP < |names|
  {
    if names[i] in Outdated(names) {
      var j :| 0 <= j < |Outdated(names)| && Outdated(names)[j] == names[i];
      if j < i { LessIsIrreflexive(names[i]); }
      if i < j { LessIsIrreflexive(names[i]); }
    }
    if i + KEEP < |names| { assert Outdated(names)[i] == names[i]; }
  }

  // ---------------------------------------------------------------- the history of a directory

  /** The backups that take part in the rotation. */
  function RotatingOf(made: seq<Backup>): seq<Backup> {
    if made == [] then []
    else
      var last := made[|made| - 1];
      RotatingOf(made[..|made| - 1]) + if last.kind == FirstHand then [] else [last]
  }

  function Newest<T>(s: seq<T>): seq<T> { if |s| > KEEP then s[|s| - KEEP..] else s }

  function Names(backups: seq<Backup>): seq<string> {
    seq(|backups|, i requires 0 <= i < |backups| => NameOf(backups[i]))
  }

  /** The backups in the order they were made. */
  predicate InOrder(made: seq<Backup>) {
    && (forall i | 0 <= i < |made| :: IsStamp(made[i].stamp))
    && forall i, j | 0 <= i < j < |made| :: Earlier(made[i], made[j])
  }

  /** Of the names that rotate, the directory holds those of these backups, as they were. */
  ghost predicate HoldsRotating(files: map<string, string>, backups: seq<Backup>) {
    && (forall n :: n in files && Rotates(n) <==> n in Names(backups))
    && forall b | b in backups :: NameOf(b) in files && files[NameOf(b)] == b.data
  }

  /** The first version edited by hand, if any was made, is the only one, and held. */
  ghost predicate HoldsFirstHand(files: map<string, string>, made: seq<Backup>) {
    && (forall b | b in made && b.kind == FirstHand :: NameOf(b) in files && files[NameOf(b)] == b.data)
    && forall i, j | 0 <= i < j < |made| :: !(made[i].kind == FirstHand && made[j].kind == FirstHand)
  }

  /** The directory holds the newest ten backups and the first version edited by hand, as they were. */
  ghost predicate Holds(files: map<string, string>, made: seq<Backup>) {
    InOrder(made) && HoldsRotating(files, Newest(RotatingOf(made))) && HoldsFirstHand(files, made)
  }

  lemma OneMore(made: seq<Backup>, b: Backup)
    ensures RotatingOf(made + [b]) == if b.kind == FirstHand then RotatingOf(made) else RotatingOf(made) + [b]
  {
    assert (made + [b])[..|made|] == made;
  }

  lemma {:induction false} RotatingIsInOrder(made: seq<Backup>)
    requires InOrder(made)
    ensures InOrder(RotatingOf(made)) && forall b | b in RotatingOf(made) :: b in made && b.kind != FirstHand
  {
    if made != [] {
      var front, last := made[..|made| - 1], made[|made| - 1];
      RotatingIsInOrder(front);
      var r := RotatingOf(front);
      forall i | 0 <= i < |r| ensures Earlier(r[i], last) {
        assert r[i] in front;
        var j :| 0 <= j < |front| && front[j] == r[i];
        assert Earlier(made[j], made[|made| - 1]);
      }
    }
  }

  lemma NamesAscend(backups: seq<Backup>)
    requires InOrder(backups) && forall b | b in backups :: b.kind != FirstHand
    ensures Ascending(Names(backups))
  {
    forall i, j | 0 <= i < j < |backups| ensures Less(NameOf(backups[i]), NameOf(backups[j])) {
      assert backups[i] in backups && backups[j] in backups;
      NamesSortByTime(backups[i], backups[j]);
    }
  }

  /** Not made before anything: what comes next is later than all. */
  lemma LaterThanAll(made: seq<Backup>, b: Backup)
    requires InOrder(made) && IsStamp(b.stamp) && (made != [] ==> Earlier(made[|made| - 1], b))
    ensures InOrder(made + [b])
  {
    forall i | 0 <= i < |made| ensures Earlier(made[i], b) {
      if i < |made| - 1 { EarlierIsTransitive(made[i], made[|made| - 1], b); }
    }
  }

  // ---------------------------------------------------------------- kinds of names

  lemma NameBegins(b: Backup)
    requires IsStamp(b.stamp)
    ensures IsFirstHand(NameOf(b)) <==> b.kind == FirstHand
  {
    var name := NameOf(b);
    assert "config-first-hand-"[7] == 'f';
    if b.kind == FirstHand {
      assert name[..18] == "config-first-hand" + "-";
    } else {
      assert name[7] == b.stamp[0];
      assert IsDigitChar(b.stamp[0]);
      assert |name| >= 18 && name[..18][7] == name[7];
    }
  }

  lemma EndsLike(a: string, t: string, p: string)
    requires HasSuffix(t, p)
    ensures HasSuffix(a + t, p)
  {
    assert (a + t)[|a + t| - |p|..] == t[|t| - |p|..];
  }

  lemma NameEnds(b: Backup)
    ensures HasSuffix(NameOf(b), ".yaml")
  {
    var tail := SuffixOf(b.kind);
    assert tail[|tail| - 5..] == ".yaml";
    EndsLike(Pad(b.number), tail, ".yaml");
    EndsLike(PrefixOf(b.kind) + ("-" + b.stamp + "-"), Pad(b.number) + tail, ".yaml");
  }

  /** The kind of a backup can be told from its name. */
  lemma NameTellsKind(b: Backup)
    requires IsStamp(b.stamp)
    ensures IsFirstHand(NameOf(b)) <==> b.kind == FirstHand
    ensures HasSuffix(NameOf(b), "-hand.yaml") <==> b.kind == Hand
  {
    NameBegins(b);
    if b.kind == Hand {
      EndsLike(Pad(b.number), "-hand.yaml", "-hand.yaml");
      EndsLike(PrefixOf(b.kind) + ("-" + b.stamp + "-"), Pad(b.number) + "-hand.yaml", "-hand.yaml");
    } else {
      NotHand(NameOf(b), PrefixOf(b.kind) + ("-" + b.stamp + "-"), Pad(b.number));
    }
  }

  lemma NotHand(name: string, start: string, number: string)
    requires name == start + (number + ".yaml") && number != "" && IsDigitChar(number[|number| - 1])
    ensures !HasSuffix(name, "-hand.yaml")
  {
    var n := |name| - 6;
    assert name[n] == number[|number| - 1];
    assert "-hand.yaml"[4] == 'd' && (|name| >= 10 ==> name[|name| - 10..][4] == name[n]);
  }

  lemma NameRotates(b: Backup)
    requires IsStamp(b.stamp)
    ensures Rotates(NameOf(b)) <==> b.kind != FirstHand
  {
    NameBegins(b);
    NameEnds(b);
    if b.kind != FirstHand { assert NameOf(b)[..7] == "config" + "-"; }
  }

  /** Copies of other files never take part in the rotation, whatever they are called. */
  lemma CopyNeverRotates(base: string, stamp: string, n: Ordinal)
    ensures !Rotates(Name(base, stamp, n, ".bak"))
  {
    var name := Name(base, stamp, n, ".bak");
    assert name[|name| - 1] == 'k' && |name| >= 5 && ".yaml"[4] == 'l';
    assert name[|name| - 5..][4] == name[|name| - 1];
  }

  // ---------------------------------------------------------------- the next number

  ghost predicate IsNext(files: set<string>, stamp: string, next: nat) {
    && IsPast(files, stamp, next)
    && (next > 0 ==> exists e :: e in files && NumberOf(e, stamp) == Some(next - 1))
  }

  /** `nextBackupSeq`. */
  method NextNumber(files: set<string>, stamp: string) returns (next: nat)
    ensures IsNext(files, stamp, next)
  {
    next := 0;
    var rest := files;
    while rest != {}
      invariant rest <= files && IsNext(files - rest, stamp, next)
    {
      var e :| e in rest;
      rest := rest - {e};
      var n := NumberOf(e, stamp);
      if n.Some? && n.value >= next {
        next := n.value + 1;
      }
    }
    assert files - rest == files;
  }

  /** A backup with a number above those of its second is later than the last backup made. */
  lemma NextIsLater(files: map<string, string>, made: seq<Backup>, b: Backup)
    requires Holds(files, made) && IsStamp(b.stamp) && IsPast(files.Keys, b.stamp, b.number)
    requires made != [] ==> made[|made| - 1].stamp == b.stamp || Less(made[|made| - 1].stamp, b.stamp)
    ensures InOrder(made + [b])
  {
    if made != [] {
      LastIsHeld(files, made);
      NumberIsRead(made[|made| - 1]);
    }
    LaterThanAll(made, b);
  }

  /** The last backup made is there. */
  lemma LastIsHeld(files: map<string, string>, made: seq<Backup>)
    requires Holds(files, made) && made != []
    ensures NameOf(made[|made| - 1]) in files && files[NameOf(made[|made| - 1])] == made[|made| - 1].data
  {
    var last, r := made[|made| - 1], RotatingOf(made);
    if last.kind != FirstHand {
      assert r[|r| - 1] == last && Newest(r)[|Newest(r)| - 1] == last;
    }
  }

  // ---------------------------------------------------------------- what a rotation leaves

  lemma NewestWithOneMore(r: seq<Backup>, b: Backup)
    ensures Newest(r + [b]) == Newest(Newest(r) + [b])
    ensures |Newest(r)| < KEEP ==> Newest(r + [b]) == Newest(r) + [b]
    ensures |Newest(r)| == KEEP ==> Newest(r + [b]) == Newest(r)[1..] + [b]
  {
  }

  lemma NewestInOrder(r: seq<Backup>)
    requires InOrder(r)
    ensures InOrder(Newest(r)) && |Newest(r)| <= KEEP && forall b | b in Newest(r) :: b in r
  {
  }

  lemma InNames(s: seq<Backup>, n: string)
    ensures n in Names(s) <==> exists b :: b in s && NameOf(b) == n
  {
    if n in Names(s) {
      var i :| 0 <= i < |s| && Names(s)[i] == n;
      assert s[i] in s;
    }
    if b :| b in s && NameOf(b) == n {
      var i :| 0 <= i < |s| && s[i] == b;
      assert Names(s)[i] == n;
    }
  }

  /** With the new backup in place, rotation leaves the last ten of those named. */
  lemma RotationLeaves(files: map<string, string>, s: seq<Backup>)
    requires InOrder(s) && (forall b | b in s :: b.kind != FirstHand) && |s| <= KEEP + 1
    requires forall n :: n in files && Rotates(n) <==> n in Names(s)
    ensures forall n :: n in Rotated(files) && Rotates(n) <==> n in Names(Newest(s))
    ensures forall n | n in files && !Rotates(n) :: n in Rotated(files)
  {
    var names := Names(s);
    NamesAscend(s);
    NamesOfNewest(s);
    LeavesNewest(files, names);
  }

  lemma NamesOfNewest(s: seq<Backup>)
    ensures Names(Newest(s)) == Newest(Names(s))
  {
  }

  lemma LeavesNewest(files: map<string, string>, names: seq<string>)
    requires Ascending(names) && |names| <= KEEP + 1 && forall n :: n in files && Rotates(n) <==> n in names
    ensures forall n :: n in Rotated(files) && Rotates(n) <==> n in Newest(names)
    ensures forall n | n in files && !Rotates(n) :: n in Rotated(files)
    ensures |names| <= KEEP ==> Rotated(files) == files
  {
    SortedAre(Rotating(files), names);
    forall n
      ensures n in Rotated(files) && Rotates(n) <==> n in Newest(names)
      ensures n in files && !Rotates(n) ==> n in Rotated(files)
    {
      LeavesName(files, names, n);
    }
    if |names| <= KEEP { OldOrNew(names, ""); }
  }

  lemma SortedAre(s: set<string>, names: seq<string>)
    requires Ascending(names) && forall n :: n in names <==> n in s
    ensures Sorted(s) == names
  {
    AscendingIsUnique(names, Sorted(s));
  }

  lemma LeavesName(files: map<string, string>, names: seq<string>, n: string)
    requires Sorted(Rotating(files)) == names && |names| <= KEEP + 1
    ensures n in Rotated(files) && Rotates(n) <==> n in Newest(names)
    ensures n in files && !Rotates(n) ==> n in Rotated(files)
  {
    OldOrNew(names, n);
    assert n in names <==> n in Rotating(files);
  }

  lemma OldOrNew(names: seq<string>, n: string)
    requires Ascending(names) && |names| <= KEEP + 1
    ensures n in Outdated(names) <==> n in names && n !in Newest(names)
    ensures n in Newest(names) ==> n in names
    ensures |names| <= KEEP ==> Outdated(names) == []
  {
    if |names| > KEEP {
      assert Outdated(names) == [names[0]];
      NotInRest(names);
      assert names == [names[0]] + names[1..];
    }
  }

  lemma RotatedOnlyRemoves(files: map<string, string>)
    ensures forall n | n in Rotated(files) :: n in files && Rotated(files)[n] == files[n]
  {
  }

  /** The names that rotate, with a new one among them. */
  lemma OneMoreRotates(files: map<string, string>, r: seq<Backup>, b: Backup)
    requires HoldsRotating(files, r) && IsStamp(b.stamp) && b.kind != FirstHand && NameOf(b) !in files
    ensures HoldsRotating(files[NameOf(b) := b.data], r + [b])
  {
    NameRotates(b);
    assert Names(r + [b]) == Names(r) + [NameOf(b)];
  }

  lemma NewestThenOne(made: seq<Backup>, b: Backup)
    requires InOrder(made + [b]) && b.kind != FirstHand
    ensures var s := Newest(RotatingOf(made)) + [b];
            InOrder(s) && |s| <= KEEP + 1 && (forall x | x in s :: x.kind != FirstHand) &&
            Newest(s) == Newest(RotatingOf(made + [b])) && b in Newest(s)
  {
    OneMore(made, b);
    RotatingIsInOrder(made + [b]);
    NewestThenLast(RotatingOf(made), b);
  }

  lemma NewestThenLast(r: seq<Backup>, b: Backup)
    requires InOrder(r + [b]) && forall x | x in r + [b] :: x.kind != FirstHand
    ensures var s := Newest(r) + [b];
            InOrder(s) && |s| <= KEEP + 1 && (forall x | x in s :: x.kind != FirstHand) &&
            Newest(s) == Newest(r + [b]) && b in Newest(s)
  {
    NewestWithOneMore(r, b);
    EndInOrder(r + [b], |r| - |Newest(r)|);
    assert Newest(r) + [b] == (r + [b])[|r| - |Newest(r)|..];
    var s := Newest(r) + [b];
    assert Newest(s)[|Newest(s)| - 1] == b;
  }

  lemma EndInOrder(r: seq<Backup>, k: nat)
    requires InOrder(r) && k <= |r| && forall x | x in r :: x.kind != FirstHand
    ensures InOrder(r[k..]) && forall x | x in r[k..] :: x.kind != FirstHand
  {
  }

  /** Rotation leaves the newest of the backups held, as they were. */
  lemma NewestAreHeld(files: map<string, string>, s: seq<Backup>)
    requires HoldsRotating(files, s) && InOrder(s) && (forall b | b in s :: b.kind != FirstHand) && |s| <= KEEP + 1
    ensures HoldsRotating(Rotated(files), Newest(s))
  {
    RotationLeaves(files, s);
    RotatedOnlyRemoves(files);
    forall b | b in Newest(s) ensures NameOf(b) in Rotated(files) && Rotated(files)[NameOf(b)] == b.data {
      InNames(Newest(s), NameOf(b));
      assert b in s;
    }
  }

  lemma FirstHandStays(files: map<string, string>, made: seq<Backup>, b: Backup)
    requires HoldsFirstHand(files, made) && InOrder(made) && b.kind != FirstHand && NameOf(b) !in files
    requires forall n | n in files[NameOf(b) := b.data] && !Rotates(n) :: n in Rotated(files[NameOf(b) := b.data])
    ensures HoldsFirstHand(Rotated(files[NameOf(b) := b.data]), made + [b])
  {
    var after := Rotated(files[NameOf(b) := b.data]);
    RotatedOnlyRemoves(files[NameOf(b) := b.data]);
    forall x | x in made + [b] && x.kind == FirstHand ensures NameOf(x) in after && after[NameOf(x)] == x.data {
      assert x in made;
      FirstHandNeverRotates(made, x);
    }
  }

  lemma FirstHandNeverRotates(made: seq<Backup>, x: Backup)
    requires InOrder(made) && x in made && x.kind == FirstHand
    ensures !Rotates(NameOf(x))
  {
    var i :| 0 <= i < |made| && made[i] == x;
    NameRotates(x);
  }

  /** A backup that takes part in the rotation is kept with the newest others. */
  lemma BackupIsKept(files: map<string, string>, made: seq<Backup>, b: Backup)
    requires Holds(files, made) && InOrder(made + [b]) && b.kind != FirstHand && NameOf(b) !in files
    ensures var after := Rotated(files[NameOf(b) := b.data]);
            Holds(after, made + [b]) && NameOf(b) in after && after[NameOf(b)] == b.data
  {
    var grown, s := files[NameOf(b) := b.data], Newest(RotatingOf(made)) + [b];
    assert IsStamp((made + [b])[|made|].stamp);
    NewestThenOne(made, b);
    OneMoreRotates(files, Newest(RotatingOf(made)), b);
    NewestAreHeld(grown, s);
    RotationLeaves(grown, s);
    FirstHandStays(files, made, b);
  }

  /** The first version edited by hand is kept beside the rotation, which then removes nothing. */
  lemma FirstHandIsKept(files: map<string, string>, made: seq<Backup>, b: Backup)
    requires Holds(files, made) && InOrder(made + [b]) && IsStamp(b.stamp) && b.kind == FirstHand
    requires NameOf(b) !in files && forall n | n in files :: !IsFirstHand(n)
    ensures var after := Rotated(files[NameOf(b) := b.data]);
            Holds(after, made + [b]) && NameOf(b) in after && after[NameOf(b)] == b.data
  {
    OneMore(made, b);
    FirstHandRotatesNothing(files, made, b);
    FirstHandIsHeld(files, made, b);
  }

  lemma FirstHandRotatesNothing(files: map<string, string>, made: seq<Backup>, b: Backup)
    requires HoldsRotating(files, Newest(RotatingOf(made))) && InOrder(made) && IsStamp(b.stamp)
    requires b.kind == FirstHand && NameOf(b) !in files
    ensures HoldsRotating(files[NameOf(b) := b.data], Newest(RotatingOf(made)))
    ensures Rotated(files[NameOf(b) := b.data]) == files[NameOf(b) := b.data]
  {
    var r := Newest(RotatingOf(made));
    NameRotates(b);
    FirstHandBeside(files, r, b);
    RotatingIsInOrder(made);
    NewestInOrder(RotatingOf(made));
    NothingOutdated(files[NameOf(b) := b.data], r);
  }

  lemma FirstHandBeside(files: map<string, string>, r: seq<Backup>, b: Backup)
    requires HoldsRotating(files, r) && !Rotates(NameOf(b)) && NameOf(b) !in files
    ensures HoldsRotating(files[NameOf(b) := b.data], r)
  {
  }

  lemma NothingOutdated(files: map<string, string>, r: seq<Backup>)
    requires HoldsRotating(files, r) && InOrder(r) && |r| <= KEEP && forall b | b in r :: b.kind != FirstHand
    ensures Rotated(files) == files
  {
    NamesAscend(r);
    LeavesNewest(files, Names(r));
  }

  lemma FirstHandIsHeld(files: map<string, string>, made: seq<Backup>, b: Backup)
    requires InOrder(made) && HoldsFirstHand(files, made) && b.kind == FirstHand
    requires forall n | n in files :: !IsFirstHand(n)
    ensures HoldsFirstHand(files[NameOf(b) := b.data], made + [b])
  {
    forall i | 0 <= i < |made| ensures made[i].kind != FirstHand { NotYetFirst(files, made, made[i]); }
  }

  lemma NotYetFirst(files: map<string, string>, made: seq<Backup>, x: Backup)
    requires InOrder(made) && HoldsFirstHand(files, made) && x in made && forall n | n in files :: !IsFirstHand(n)
    ensures x.kind != FirstHand
  {
    var i :| 0 <= i < |made| && made[i] == x;
    NameBegins(x);
  }

  /** A backup made with the next number, as first version edited by hand or not. */
  lemma BackupIsMade(files: map<string, string>, made: seq<Backup>, b: Backup)
    requires Holds(files, made) && IsStamp(b.stamp) && IsPast(files.Keys, b.stamp, b.number)
    requires made != [] ==> made[|made| - 1].stamp == b.stamp || Less(made[|made| - 1].stamp, b.stamp)
    requires NameOf(b) !in files && (b.kind == FirstHand ==> forall n | n in files :: !IsFirstHand(n))
    ensures var after := Rotated(files[NameOf(b) := b.data]);
            Holds(after, made + [b]) && NameOf(b) in after && after[NameOf(b)] == b.data
  {
    NextIsLater(files, made, b);
    assert InOrder(made + [b]);
    if b.kind == FirstHand {
      FirstHandIsKept(files, made, b);
    } else {
      BackupIsKept(files, made, b);
    }
  }

  /** A copy of another file changes nothing about the backups. */
  lemma CopyIsBeside(files: map<string, string>, made: seq<Backup>, name: string, data: string)
    requires Holds(files, made) && name !in files && !Rotates(name)
    ensures Holds(files[name := data], made)
  {
    forall b | b in Newest(RotatingOf(made)) ensures NameOf(b) != name { }
    forall b | b in made && b.kind == FirstHand ensures NameOf(b) != name { }
  }

  /** The first version edited by hand is a backup of its own kind. */
  ghost function KindOf(current: Current, files: map<string, string>): Kind {
    if !current.HandEdited? then Plain else if exists n :: n in files && IsFirstHand(n) then Hand else FirstHand
  }

  /** The new backup is the last made, and in the directory, which is otherwise rotated. */
  ghost predicate IsAdded(before: map<string, string>, history: seq<Backup>, kind: Kind, stamp: string, data: string,
                          name: string, files: map<string, string>, made: seq<Backup>) {
    && made != [] && made == history + [made[|made| - 1]]
    && (var b := made[|made| - 1]; b.kind == kind && b.stamp == stamp && b.data == data && NameOf(b) == name)
    && files == Rotated(before[name := data]) && name in files && files[name] == data
  }

  /** The clock has not gone back since the last backup. */
  predicate InTime(made: seq<Backup>, stamp: string) {
    IsStamp(stamp) &&
    (made != [] ==> made[|made| - 1].stamp == stamp || Less(made[|made| - 1].stamp, stamp))
  }

  lemma BackupIsAdded(files: map<string, string>, made: seq<Backup>, b: Backup, name: string)
    requires Holds(files, made) && InTime(made, b.stamp) && name == NameOf(b) && name !in files
    requires IsPast(files.Keys, b.stamp, b.number)
    requires b.kind == FirstHand ==> forall n | n in files :: !IsFirstHand(n)
    ensures Holds(Rotated(files[name := b.data]), made + [b])
    ensures IsAdded(files, made, b.kind, b.stamp, b.data, name, Rotated(files[name := b.data]), made + [b])
  {
    BackupIsMade(files, made, b);
  }

  // ---------------------------------------------------------------- the directory

  /** The directory of backups, and the history of the configuration backups made in it. */
  class Store {
    var files: map<string, string>
    ghost var made: seq<Backup>

    ghost predicate Valid()
      reads this
    {
      Holds(files, made)
    }

    constructor ()
      ensures Valid() && files == map[] && made == []
    {
      files, made := map[], [];
      assert Rotating(map[]) == {};
    }

    /** `writeBackup`: the first free name with a number above those of this second, None when there is none. */
    method WriteBackup(prefix: string, suffix: string, stamp: string, data: string) returns (number: Option<Ordinal>)
      modifies this`files
      ensures number.None? ==> files == old(files)
      ensures number.None? <==>
        forall n: Ordinal | IsPast(old(files).Keys, stamp, n) :: Name(prefix, stamp, n, suffix) in old(files)
      ensures number.Some? ==>
        && Name(prefix, stamp, number.value, suffix) !in old(files)
        && files == old(files)[Name(prefix, stamp, number.value, suffix) := data]
        && IsPast(old(files).Keys, stamp, number.value)
        && forall n: Ordinal | n < number.value && IsPast(old(files).Keys, stamp, n) ::
             Name(prefix, stamp, n, suffix) in old(files)
    {
      var next := NextNumber(files.Keys, stamp);
      var n := next;
      while n < NUMBERS
        invariant n >= next && files == old(files)
        invariant forall m: Ordinal | next <= m < n :: Name(prefix, stamp, m, suffix) in files
      {
        var name := Name(prefix, stamp, n, suffix);
        if name !in files {
          files := files[name := data];
          return Some(n);
        }
        n := n + 1;
      }
      return None;
    }

    /** `hasFirstHand`. */
    method HasFirstHand() returns (r: bool)
      ensures r <==> exists n :: n in files && IsFirstHand(n)
    {
      r := exists n | n in files.Keys :: IsFirstHand(n);
    }

    /** `rotateBackups`. */
    method RotateBackups()
      modifies this`files
      ensures files == Rotated(old(files))
    {
      var names := Sorted(Rotating(files));
      ghost var all := names;
      while |names| > KEEP
        invariant |all| <= KEEP ==> names == all
        invariant |all| > KEEP ==> |names| >= KEEP
        invariant |names| <= |all| && names == all[|all| - |names|..]
        invariant files == old(files) - Elements(all[..|all| - |names|])
      {
        assert all[..|all| - |names| + 1] == all[..|all| - |names|] + [names[0]];
        files := files - {names[0]};
        names := names[1..];
      }
    }

    /** `backupCurrent`, at a time not before that of the last backup: what is there is saved, unless the last number
        of the second is used. */
    method BackupCurrent(stamp: string, current: Current) returns (outcome: Outcome)
      requires Valid() && InTime(made, stamp)
      modifies this
      ensures Valid()
      ensures outcome == NothingThere <==> current.Missing?
      ensures outcome == NoFreeName <==> !current.Missing? && IsUsedUp(old(files).Keys, stamp)
      ensures !outcome.Saved? ==> files == old(files) && made == old(made)
      ensures outcome.Saved? ==>
        && (IsFirstHand(outcome.name) <==> current.HandEdited? && forall n | n in old(files) :: !IsFirstHand(n))
        && (HasSuffix(outcome.name, "-hand.yaml") <==> current.HandEdited? && exists n :: n in old(files) && IsFirstHand(n))
      ensures outcome.Saved? ==> IsAdded(old(files), old(made), KindOf(current, old(files)), stamp, current.data,
                                         outcome.name, files, made)
    {
      if current.Missing? {
        return NothingThere;
      }
      var kind := ChooseKind(current);
      var path := BackUp(kind, stamp, current.data);
      if path.None? {
        return NoFreeName;
      }
      NameTellsKind(made[|made| - 1]);
      return Saved(path.value);
    }

    method ChooseKind(current: Current) returns (kind: Kind)
      ensures kind == KindOf(current, files) && (kind == FirstHand ==> forall n | n in files :: !IsFirstHand(n))
    {
      kind := Plain;
      if current.HandEdited? {
        var has := HasFirstHand();
        kind := if has then Hand else FirstHand;
      }
    }

    method BackUp(kind: Kind, stamp: string, data: string) returns (path: Option<string>)
      requires Valid() && InTime(made, stamp) && (kind == FirstHand ==> forall n | n in files :: !IsFirstHand(n))
      modifies this
      ensures Valid()
      ensures path.None? <==> IsUsedUp(old(files).Keys, stamp)
      ensures path.None? ==> files == old(files) && made == old(made)
      ensures path.Some? ==> IsAdded(old(files), old(made), kind, stamp, data, path.value, files, made)
    {
      ghost var before := files;
      NoneIsLeft(files.Keys, stamp, kind);
      var number := WriteBackup(PrefixOf(kind), SuffixOf(kind), stamp, data);
      if number.None? {
        return None;
      }
      var name := Name(PrefixOf(kind), stamp, number.value, SuffixOf(kind));
      ghost var b := Backup(stamp, number.value, kind, data);
      BackupIsAdded(before, made, b, name);
      RotateBackups();
      made := made + [b];
      path := Some(name);
    }

    /** `BackupCopy`. */
    method BackupCopy(base: string, stamp: string, data: string) returns (path: Option<string>)
      requires Valid()
      modifies this
      ensures Valid() && made == old(made)
      ensures path.None? ==> files == old(files)
      ensures path.None? <==>
        forall n: Ordinal | IsPast(old(files).Keys, stamp, n) :: Name(base, stamp, n, ".bak") in old(files)
      ensures path.Some? ==> path.value !in old(files) && files == old(files)[path.value := data]
    {
      var number := WriteBackup(base, ".bak", stamp, data);
      if number.None? {
        return None;
      }
      CopyNeverRotates(base, stamp, number.value);
      CopyIsBeside(old(files), made, Name(base, stamp, number.value, ".bak"), data);
      return Some(Name(base, stamp, number.value, ".bak"));
    }
  }

  /** What holding a history means: the ten last made are there, in the order of their names, beside the one
      version first edited by hand; nothing else takes part in the rotation. */
  lemma HeldAreNewest(files: map<string, string>, made: seq<Backup>)
    requires Holds(files, made)
    ensures Sorted(Rotating(files)) == Names(Newest(RotatingOf(made)))
    ensures forall b | b in made && b.kind == FirstHand :: NameOf(b) in files
  {
    RotatingIsInOrder(made);
    NewestInOrder(RotatingOf(made));
    NamesAscend(Newest(RotatingOf(made)));
    AscendingIsUnique(Sorted(Rotating(files)), Names(Newest(RotatingOf(made))));
  }
}
