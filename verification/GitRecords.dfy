/**
 The parsers of git's NUL-terminated output (`parse_ls_tree_z`, `parse_ls_files_stage_z`,
 `parse_diff_z`), each proved to accept exactly a written grammar and to give its one reading.
 */
module GitRecords {
  import opened Prelude
  import opened StoreTypes
  import opened Digits
  import opened Fields
  import Utf8

  datatype Problem =
    NotUtf8 | NoTab | BadShape | NoColon | EmptyStatus | MissingPath | MissingDest | BadOid | BadStage

  // ---------------------------------------------------------------------------------------
  // Words
  // ---------------------------------------------------------------------------------------

  /** `Oid::parse`: 40 or 64 lowercase hex digits. */
  predicate IsOid(s: Bytes) {
    && (|s| == 40 || |s| == 64)
    && forall i :: 0 <= i < |s| ==> IsDigit(s[i]) || 97 <= s[i] <= 102
  }

  /** `100644`, `100755`, `120000`, `160000`. */
  function ModeText(m: Mode): Bytes {
    match m
    case Regular => [49, 48, 48, 54, 52, 52]
    case Executable => [49, 48, 48, 55, 53, 53]
    case Symlink => [49, 50, 48, 48, 48, 48]
    case Gitlink => [49, 54, 48, 48, 48, 48]
  }

  function ParseMode(s: Bytes): (m: Option<Mode>)
    ensures forall k :: m == Some(k) <==> s == ModeText(k)
  {
    assert ModeText(Regular)[3] != ModeText(Executable)[3];
    assert ModeText(Symlink)[1] != ModeText(Gitlink)[1];
    assert ModeText(Regular)[1] != ModeText(Symlink)[1] && ModeText(Regular)[1] != ModeText(Gitlink)[1];
    assert ModeText(Executable)[1] != ModeText(Symlink)[1] && ModeText(Executable)[1] != ModeText(Gitlink)[1];
    if s == ModeText(Regular) then Some(Regular)
    else if s == ModeText(Executable) then Some(Executable)
    else if s == ModeText(Symlink) then Some(Symlink)
    else if s == ModeText(Gitlink) then Some(Gitlink)
    else None
  }

  /** The digits `Oid::parse` allows, as numbers. */
  function HexDigit(n: nat): Byte
    requires n < 16
  {
    if n < 10 then Digit(n) else (87 + n) as Byte
  }

  /** An id is the lowercase hexadecimal print of 20 or 32 bytes' worth of digits. */
  lemma OidIsHex(s: Bytes)
    ensures IsOid(s) <==>
      exists ds: seq<nat> :: (|ds| == 2 * 20 || |ds| == 2 * 32) && |ds| == |s|
                             && forall i :: 0 <= i < |ds| ==> ds[i] < 16 && s[i] == HexDigit(ds[i])
  {
    if IsOid(s) {
      var ds := seq(|s|, i requires 0 <= i < |s| => HexValue(s[i]));
      assert forall i :: 0 <= i < |ds| ==> ds[i] < 16 && s[i] == HexDigit(ds[i]);
    }
  }

  function HexValue(b: Byte): nat {
    if IsDigit(b) then b as int - 48 else if 97 <= b <= 102 then b as int - 87 else 0
  }

  /** `str::parse::<u8>`: one `+` is allowed, then digits, at most 255. */
  function ParseStage(s: Bytes): Option<nat> {
    var digits := if s != [] && s[0] == 43 then s[1..] else s;
    if digits != [] && AllDigits(digits) && Value(digits) <= 255 then Some(Value(digits)) else None
  }

  /** A word git prints in a record's head: ASCII, with no separator in it. */
  predicate Word(w: Bytes) {
    Utf8.Ascii(w) && SP !in w && TAB !in w && NUL !in w
  }

  // ---------------------------------------------------------------------------------------
  // `<a> <b> <c>\t<path>`
  // ---------------------------------------------------------------------------------------

  datatype Tabbed = Tabbed(a: Bytes, b: Bytes, c: Bytes, path: Bytes)

  function Head(t: Tabbed): Bytes {
    Join([t.a, t.b, t.c], SP)
  }

  function PrintTabbed(t: Tabbed): Bytes {
    Head(t) + [TAB] + t.path
  }

  /** Three words of a UTF-8 head; the path is any bytes, tabs and spaces included. */
  predicate WellTabbed(t: Tabbed) {
    Free([t.a, t.b, t.c], SP) && Free([t.a, t.b, t.c], TAB) && Utf8.Valid(Head(t))
  }

  function ReadTabbed(rec: Bytes): Result<Tabbed, Problem> {
    if TAB !in rec then Err(NoTab)
    else
      var tab := Find(rec, TAB);
      var head := rec[..tab];
      if !Utf8.Valid(head) then Err(NotUtf8)
      else
        var parts := SplitOn(head, SP);
        if |parts| != 3 then Err(BadShape)
        else Ok(Tabbed(parts[0], parts[1], parts[2], rec[tab + 1..]))
  }

  lemma {:induction false} JoinFree(parts: seq<Bytes>, sep: Byte, other: Byte)
    requires parts != [] && sep != other
    ensures other !in Join(parts, sep) <==> Free(parts, other)
  {
    if |parts| > 1 {
      JoinFree(parts[1..], sep, other);
      assert Free(parts, other) <==> other !in parts[0] && Free(parts[1..], other);
    }
  }

  /** A record reads as `t` exactly when it is `t` printed. */
  lemma TabbedExactly(rec: Bytes, t: Tabbed)
    ensures ReadTabbed(rec) == Ok(t) <==> WellTabbed(t) && rec == PrintTabbed(t)
  {
    hide Join, SplitOn, Free, Utf8.Valid;
    var words := [t.a, t.b, t.c];
    JoinFree(words, SP, TAB);
    if WellTabbed(t) && rec == PrintTabbed(t) {
      FirstOf(Head(t), TAB, t.path);
      SplitExactly(Head(t), SP, words);
    }
    if ReadTabbed(rec) == Ok(t) {
      var head := rec[..Find(rec, TAB)];
      var parts := SplitOn(head, SP);
      assert words == parts;
      SplitExactly(head, SP, words);
      assert TAB !in head;
      assert rec == head + [TAB] + t.path;
    }
  }

  /** Every record in turn; one `f` passes over is left out, and the first problem ends it. */
  function Records<E>(recs: seq<Bytes>, f: Tabbed -> Result<Option<E>, Problem>): Result<seq<E>, Problem> {
    if recs == [] then Ok([])
    else
      match ReadTabbed(recs[0]) {
        case Err(p) => Err(p)
        case Ok(t) =>
          match f(t) {
            case Err(p) => Err(p)
            case Ok(e) => Before(if e.Some? then [e.value] else [], Records(recs[1..], f))
          }
      }
  }

  /** `out`, then what the rest gives. */
  function Before<E>(out: seq<E>, rest: Result<seq<E>, Problem>): Result<seq<E>, Problem> {
    match rest {
      case Ok(es) => Ok(out + es)
      case Err(p) => Err(p)
    }
  }

  lemma BeforeBefore<E>(a: seq<E>, b: seq<E>, rest: Result<seq<E>, Problem>)
    ensures Before(a, Before(b, rest)) == Before(a + b, rest)
    ensures Before([], rest) == rest && a + [] == a
  {
    if rest.Ok? {
      assert a + (b + rest.value) == (a + b) + rest.value && [] + rest.value == rest.value;
    }
  }

  /** Lines `f` takes or passes over. */
  ghost predicate Fine<E>(lines: seq<Tabbed>, f: Tabbed -> Result<Option<E>, Problem>) {
    forall i :: 0 <= i < |lines| ==> WellTabbed(lines[i]) && f(lines[i]).Ok?
  }

  ghost function Kept<E>(lines: seq<Tabbed>, f: Tabbed -> Result<Option<E>, Problem>): seq<E>
    requires Fine(lines, f)
  {
    if lines == [] then []
    else
      assert f(lines[0]).Ok?;
      var e := f(lines[0]).value;
      (if e.Some? then [e.value] else []) + Kept(lines[1..], f)
  }

  function Printed(lines: seq<Tabbed>): seq<Bytes> {
    seq(|lines|, i requires 0 <= i < |lines| => PrintTabbed(lines[i]))
  }

  lemma {:induction false} PrintedReads<E>(lines: seq<Tabbed>, f: Tabbed -> Result<Option<E>, Problem>)
    requires Fine(lines, f)
    ensures Records(Printed(lines), f) == Ok(Kept(lines, f))
  {
    if lines != [] {
      TabbedExactly(PrintTabbed(lines[0]), lines[0]);
      assert Printed(lines)[1..] == Printed(lines[1..]);
      assert f(lines[0]).Ok?;
      PrintedReads(lines[1..], f);
    }
  }

  lemma {:induction false} ReadIsPrinted<E>(recs: seq<Bytes>, f: Tabbed -> Result<Option<E>, Problem>)
    returns (lines: seq<Tabbed>)
    requires Records(recs, f).Ok?
    ensures Fine(lines, f) && recs == Printed(lines)
  {
    hide WellTabbed, PrintTabbed, ReadTabbed;
    if recs == [] {
      lines := [];
    } else {
      var t := ReadTabbed(recs[0]).value;
      TabbedExactly(recs[0], t);
      var rest := ReadIsPrinted(recs[1..], f);
      lines := [t] + rest;
      assert recs == [recs[0]] + recs[1..];
    }
  }

  /** The records read as `es` exactly when they are fine lines printed, and `es` what is kept of those. */
  lemma RecordsExactly<E>(recs: seq<Bytes>, f: Tabbed -> Result<Option<E>, Problem>, es: seq<E>)
    ensures Records(recs, f) == Ok(es)
       <==> exists lines :: Fine(lines, f) && recs == Printed(lines) && es == Kept(lines, f)
  {
    if Records(recs, f) == Ok(es) {
      var lines := ReadIsPrinted(recs, f);
      PrintedReads(lines, f);
    }
    if lines :| Fine(lines, f) && recs == Printed(lines) && es == Kept(lines, f) {
      PrintedReads(lines, f);
    }
  }

  // ---------------------------------------------------------------------------------------
  // `ls-tree -r -z`
  // ---------------------------------------------------------------------------------------

  datatype TreeEntry = TreeEntry(mode: Mode, oid: Bytes, path: Bytes)

  /** An unknown mode is passed over before its id is looked at. */
  function TreeOf(t: Tabbed): Result<Option<TreeEntry>, Problem> {
    match ParseMode(t.a) {
      case None => Ok(None)
      case Some(m) => if IsOid(t.c) then Ok(Some(TreeEntry(m, t.c, t.path))) else Err(BadOid)
    }
  }

  method ParseLsTreeZ(bytes: Bytes) returns (r: Result<seq<TreeEntry>, Problem>)
    ensures r == Records(SplitNul(bytes), TreeOf)
  {
    var recs := SplitNul(bytes);
    var out: seq<TreeEntry> := [];
    BeforeBefore(out, [], Records(recs, TreeOf));
    assert recs[0..] == recs;
    for i := 0 to |recs|
      invariant Records(recs, TreeOf) == Before(out, Records(recs[i..], TreeOf))
    {
      ghost var rest := Records(recs[i + 1..], TreeOf);
      assert recs[i..][1..] == recs[i + 1..];
      match ReadTabbed(recs[i]) {
        case Err(p) =>
          return Err(p);
        case Ok(t) =>
          match ParseMode(t.a) {
            case None =>
              BeforeBefore(out, [], rest);
            case Some(mode) =>
              if !IsOid(t.c) {
                return Err(BadOid);
              }
              BeforeBefore(out, [TreeEntry(mode, t.c, t.path)], rest);
              out := out + [TreeEntry(mode, t.c, t.path)];
          }
      }
    }
    assert out + [] == out;
    r := Ok(out);
  }

  /** Printed as git prints it; `kind` is the object type. */
  function TreeLine(e: TreeEntry, kind: Bytes): Tabbed {
    Tabbed(ModeText(e.mode), kind, e.oid, e.path)
  }

  function TreeLines(es: seq<TreeEntry>, kind: Bytes): seq<Tabbed> {
    seq(|es|, i requires 0 <= i < |es| => TreeLine(es[i], kind))
  }

  lemma OidIsWord(s: Bytes)
    requires IsOid(s)
    ensures Word(s)
  {
  }

  lemma ModeIsWord(m: Mode)
    ensures Word(ModeText(m))
  {
  }

  lemma WordsAreFine(t: Tabbed)
    requires Word(t.a) && Word(t.b) && Word(t.c)
    ensures WellTabbed(t)
    ensures NUL !in t.path ==> NUL !in PrintTabbed(t)
  {
    JoinFree([t.a, t.b, t.c], SP, NUL);
    assert Join([t.b, t.c], SP) == t.b + [SP] + t.c by {
      assert [t.b, t.c][1..] == [t.c];
    }
    assert [t.a, t.b, t.c][1..] == [t.b, t.c];
    assert Utf8.Ascii(Head(t));
    Utf8.AsciiIsValid(Head(t));
  }

  /** Any listing comes back, whatever bytes but NUL its paths hold. */
  lemma TreeRoundTrip(es: seq<TreeEntry>, kind: Bytes)
    requires Word(kind)
    requires forall e :: e in es ==> IsOid(e.oid) && NUL !in e.path
    ensures Records(SplitNul(Terminated(Printed(TreeLines(es, kind)))), TreeOf) == Ok(es)
  {
    var lines := TreeLines(es, kind);
    forall i | 0 <= i < |lines|
      ensures WellTabbed(lines[i]) && NUL !in PrintTabbed(lines[i])
      ensures TreeOf(lines[i]) == Ok(Some(es[i]))
    {
      assert es[i] in es;
      OidIsWord(es[i].oid);
      ModeIsWord(es[i].mode);
      WordsAreFine(lines[i]);
    }
    SplitNulInverts(Printed(lines));
    PrintedReads(lines, TreeOf);
    KeptAll(lines, TreeOf, es);
  }

  /** What a listing's lines of known mode say, those of other modes left out. */
  ghost function KnownEntries(lines: seq<Tabbed>): seq<TreeEntry> {
    if lines == [] then []
    else
      (if m :| lines[0].a == ModeText(m) then [TreeEntry(m, lines[0].c, lines[0].path)] else [])
      + KnownEntries(lines[1..])
  }

  /** A line of a mode not known here is passed over, whatever its id; every other line comes back. */
  lemma UnknownModesPassedOver(lines: seq<Tabbed>)
    requires forall l :: l in lines ==> Word(l.a) && Word(l.b) && Word(l.c) && NUL !in l.path
    requires forall l, m :: l in lines && l.a == ModeText(m) ==> IsOid(l.c)
    ensures Records(SplitNul(Terminated(Printed(lines))), TreeOf) == Ok(KnownEntries(lines))
  {
    forall i | 0 <= i < |lines|
      ensures WellTabbed(lines[i]) && NUL !in PrintTabbed(lines[i]) && TreeOf(lines[i]).Ok?
    {
      assert lines[i] in lines;
      WordsAreFine(lines[i]);
    }
    SplitNulInverts(Printed(lines));
    PrintedReads(lines, TreeOf);
    KeptIsKnown(lines);
  }

  lemma {:induction false} KeptIsKnown(lines: seq<Tabbed>)
    requires Fine(lines, TreeOf)
    ensures Kept(lines, TreeOf) == KnownEntries(lines)
  {
    if lines != [] {
      assert TreeOf(lines[0]).Ok?;
      KeptIsKnown(lines[1..]);
    }
  }

  lemma {:induction false} KeptAll<E>(lines: seq<Tabbed>, f: Tabbed -> Result<Option<E>, Problem>, es: seq<E>)
    requires Fine(lines, f) && |lines| == |es|
    requires forall i :: 0 <= i < |lines| ==> f(lines[i]) == Ok(Some(es[i]))
    ensures Kept(lines, f) == es
  {
    if lines != [] {
      KeptAll(lines[1..], f, es[1..]);
      assert f(lines[0]) == Ok(Some(es[0]));
      assert es == [es[0]] + es[1..];
    }
  }

  // ---------------------------------------------------------------------------------------
  // `ls-files --stage -z`
  // ---------------------------------------------------------------------------------------

  datatype StageEntry = StageEntry(mode: Option<Mode>, oid: Bytes, stage: nat, path: Bytes)

  function StageOf(t: Tabbed): Result<Option<StageEntry>, Problem> {
    if !IsOid(t.b) then Err(BadOid)
    else
      match ParseStage(t.c) {
        case None => Err(BadStage)
        case Some(n) => Ok(Some(StageEntry(ParseMode(t.a), t.b, n, t.path)))
      }
  }

  method ParseLsFilesStageZ(bytes: Bytes) returns (r: Result<seq<StageEntry>, Problem>)
    ensures r == Records(SplitNul(bytes), StageOf)
  {
    var recs := SplitNul(bytes);
    var out: seq<StageEntry> := [];
    BeforeBefore(out, [], Records(recs, StageOf));
    assert recs[0..] == recs;
    for i := 0 to |recs|
      invariant Records(recs, StageOf) == Before(out, Records(recs[i..], StageOf))
    {
      ghost var rest := Records(recs[i + 1..], StageOf);
      assert recs[i..][1..] == recs[i + 1..];
      match ReadTabbed(recs[i]) {
        case Err(p) =>
          return Err(p);
        case Ok(t) =>
          if !IsOid(t.b) {
            return Err(BadOid);
          }
          match ParseStage(t.c) {
            case None =>
              return Err(BadStage);
            case Some(n) =>
              BeforeBefore(out, [StageEntry(ParseMode(t.a), t.b, n, t.path)], rest);
              out := out + [StageEntry(ParseMode(t.a), t.b, n, t.path)];
          }
      }
    }
    assert out + [] == out;
    r := Ok(out);
  }

  /** An absent mode prints as `000000`. */
  function PrintMode(m: Option<Mode>): Bytes {
    match m
    case None => [48, 48, 48, 48, 48, 48]
    case Some(k) => ModeText(k)
  }

  lemma PrintModeReads(m: Option<Mode>)
    ensures ParseMode(PrintMode(m)) == m && Word(PrintMode(m))
  {
    if m.None? {
      assert forall k :: PrintMode(None)[0] != ModeText(k)[0];
    } else {
      ModeIsWord(m.value);
    }
  }

  lemma {:induction false} DecimalReads(n: nat)
    ensures Decimal(n) != [] && AllDigits(Decimal(n)) && Value(Decimal(n)) == n
  {
    if n >= 10 {
      DecimalReads(n / 10);
      var text := Decimal(n);
      assert text[..|text| - 1] == Decimal(n / 10);
    } else {
      var text := Decimal(n);
      assert text[..|text| - 1] == [];
    }
  }

  lemma StageReads(n: nat)
    requires n <= 255
    ensures ParseStage(Decimal(n)) == Some(n) && Word(Decimal(n))
  {
    DecimalReads(n);
    assert IsDigit(Decimal(n)[0]);
  }

  /** The stages there are: digits, with a plus sign or without, that make 255 at most. */
  lemma StageExactly(s: Bytes, n: nat)
    ensures ParseStage(s) == Some(n) <==>
      n <= 255 && exists digits :: digits != [] && AllDigits(digits) && Value(digits) == n
                                   && (s == digits || s == [43] + digits)
  {
    if ParseStage(s) == Some(n) {
      var digits := if s[0] == 43 then s[1..] else s;
      assert s == digits || s == [43] + digits;
    }
    if digits :| digits != [] && AllDigits(digits) && Value(digits) == n && (s == digits || s == [43] + digits) {
      assert IsDigit(digits[0]);
      assert s == [43] + digits ==> s[1..] == digits;
    }
  }

  function StageLines(es: seq<StageEntry>): seq<Tabbed> {
    seq(|es|, i requires 0 <= i < |es| => Tabbed(PrintMode(es[i].mode), es[i].oid, Decimal(es[i].stage), es[i].path))
  }

  lemma StageRoundTrip(es: seq<StageEntry>)
    requires forall e :: e in es ==> IsOid(e.oid) && e.stage <= 255 && NUL !in e.path
    ensures Records(SplitNul(Terminated(Printed(StageLines(es)))), StageOf) == Ok(es)
  {
    var lines := StageLines(es);
    forall i | 0 <= i < |lines|
      ensures WellTabbed(lines[i]) && NUL !in PrintTabbed(lines[i])
      ensures StageOf(lines[i]) == Ok(Some(es[i]))
    {
      assert es[i] in es;
      OidIsWord(es[i].oid);
      PrintModeReads(es[i].mode);
      StageReads(es[i].stage);
      WordsAreFine(lines[i]);
    }
    SplitNulInverts(Printed(lines));
    PrintedReads(lines, StageOf);
    KeptAll(lines, StageOf, es);
  }

  // ---------------------------------------------------------------------------------------
  // `diff-files -z`, `diff-tree -z`
  // ---------------------------------------------------------------------------------------

  const COLON: Byte := 58

  /** `status` is one character; `dest` belongs to renames and copies. */
  datatype DiffEntry = DiffEntry(oldMode: Option<Mode>, newMode: Option<Mode>, oldOid: Bytes, newOid: Bytes,
                                 status: Bytes, path: Bytes, dest: Option<Bytes>)

  /** A record as printed: `status` may carry a score after its letter. */
  datatype DiffLine = DiffLine(oldMode: Bytes, newMode: Bytes, oldOid: Bytes, newOid: Bytes,
                               status: Bytes, path: Bytes, dest: Option<Bytes>)

  /** The first character of some UTF-8 text. */
  function FirstChar(s: Bytes): Bytes
    requires s != []
  {
    if Utf8.CharLen(s) == 0 then s[..1] else s[..Utf8.CharLen(s)]
  }

  /** `R` or `C`. */
  predicate HasDest(letter: Bytes) {
    letter == [82] || letter == [67]
  }

  /** A rename's letter or a copy's, and what `HasDest` makes of a status by its first character. */
  predicate IsMove(letter: Byte) {
    letter in {82, 67}
  }

  lemma FirstCharMoves(status: Bytes)
    requires status != []
    ensures HasDest(FirstChar(status)) <==> IsMove(status[0])
  {
    assert FirstChar(status)[0] == status[0];
  }

  function Words(l: DiffLine): seq<Bytes> {
    [l.oldMode, l.newMode, l.oldOid, l.newOid, l.status]
  }

  function DiffHead(l: DiffLine): Bytes {
    [COLON] + Join(Words(l), SP)
  }

  /** Two fields, or three. */
  function LineFields(l: DiffLine): seq<Bytes> {
    [DiffHead(l), l.path] + if l.dest.Some? then [l.dest.value] else []
  }

  predicate FineDiff(l: DiffLine) {
    && Free(Words(l), SP) && Utf8.Valid(DiffHead(l))
    && l.status != [] && IsOid(l.oldOid) && IsOid(l.newOid)
    && (l.dest.Some? <==> IsMove(l.status[0]))
  }

  function EntryOf(l: DiffLine): DiffEntry
    requires FineDiff(l)
  {
    DiffEntry(ParseMode(l.oldMode), ParseMode(l.newMode), l.oldOid, l.newOid, FirstChar(l.status), l.path, l.dest)
  }

  /** The five words of a head field. */
  function ReadHead(field: Bytes): (r: Result<seq<Bytes>, Problem>)
    ensures r.Ok? ==> |r.value| == 5
  {
    if !Utf8.Valid(field) then Err(NotUtf8)
    else if field == [] || field[0] != COLON then Err(NoColon)
    else
      var parts := SplitOn(field[1..], SP);
      if |parts| != 5 then Err(BadShape) else Ok(parts)
  }

  /** The record at the front of `fields`: its words checked in the order the parser does. */
  function ReadDiff(fields: seq<Bytes>): (r: Result<DiffLine, Problem>)
    requires fields != []
    ensures r.Ok? ==> |LineFields(r.value)| <= |fields| && r.value.status != []
  {
    match ReadHead(fields[0])
    case Err(p) => Err(p)
    case Ok(parts) =>
      if parts[4] == [] then Err(EmptyStatus)
      else if |fields| < 2 then Err(MissingPath)
      else if HasDest(FirstChar(parts[4])) && |fields| < 3 then Err(MissingDest)
      else if !IsOid(parts[2]) || !IsOid(parts[3]) then Err(BadOid)
      else
        Ok(DiffLine(parts[0], parts[1], parts[2], parts[3], parts[4], fields[1],
                    if HasDest(FirstChar(parts[4])) then Some(fields[2]) else None))
  }

  lemma HeadExactly(field: Bytes, parts: seq<Bytes>)
    ensures ReadHead(field) == Ok(parts)
       <==> |parts| == 5 && Free(parts, SP) && field == [COLON] + Join(parts, SP) && Utf8.Valid(field)
  {
    if |parts| == 5 && field == [COLON] + Join(parts, SP) {
      assert field[1..] == Join(parts, SP);
    }
    if field != [] {
      SplitExactly(field[1..], SP, parts);
    }
  }

  /** A record reads as `l` exactly when its fields begin with `l` printed. */
  lemma DiffLineExactly(fields: seq<Bytes>, l: DiffLine)
    requires fields != []
    ensures ReadDiff(fields) == Ok(l) <==> FineDiff(l) && LineFields(l) <= fields
  {
    hide Join, ReadHead, Utf8.Valid, IsOid, Free;
    HeadExactly(fields[0], Words(l));
    if l.status != [] {
      FirstCharMoves(l.status);
    }
    if FineDiff(l) && LineFields(l) <= fields {
      assert fields[0] == LineFields(l)[0];
      assert fields[1] == LineFields(l)[1];
      assert l.dest.Some? ==> fields[2] == LineFields(l)[2];
    }
    if ReadDiff(fields) == Ok(l) {
      var parts := ReadHead(fields[0]).value;
      HeadExactly(fields[0], parts);
      assert parts == Words(l);
    }
  }

  function DiffRecords(fields: seq<Bytes>): Result<seq<DiffEntry>, Problem>
    decreases |fields|
  {
    if fields == [] then Ok([])
    else
      match ReadDiff(fields) {
        case Err(p) => Err(p)
        case Ok(l) =>
          DiffLineExactly(fields, l);
          Before([EntryOf(l)], DiffRecords(fields[|LineFields(l)|..]))
      }
  }

  method ParseDiffZ(bytes: Bytes) returns (r: Result<seq<DiffEntry>, Problem>)
    ensures r == DiffRecords(SplitNul(bytes))
  {
    hide Join, SplitOn, Free, Utf8.Valid, IsOid, ParseMode, ReadHead, Words, SplitNul;
    var fields := SplitNul(bytes);
    var out: seq<DiffEntry> := [];
    BeforeBefore(out, [], DiffRecords(fields));
    assert fields[0..] == fields;
    var i := 0;
    while i < |fields|
      invariant 0 <= i <= |fields|
      invariant DiffRecords(fields) == Before(out, DiffRecords(fields[i..]))
    {
      var parts: seq<Bytes>;
      match ReadHead(fields[i]) {
        case Err(p) =>
          return Err(p);
        case Ok(five) =>
          parts := five;
      }
      if parts[4] == [] {
        return Err(EmptyStatus);
      }
      var letter := FirstChar(parts[4]);
      if i + 1 >= |fields| {
        return Err(MissingPath);
      }
      var consumed := 2;
      var dest := None;
      if HasDest(letter) {
        consumed := 3;
        if i + 2 >= |fields| {
          return Err(MissingDest);
        }
        dest := Some(fields[i + 2]);
      }
      if !IsOid(parts[2]) || !IsOid(parts[3]) {
        return Err(BadOid);
      }
      var e := DiffEntry(ParseMode(parts[0]), ParseMode(parts[1]), parts[2], parts[3], letter, fields[i + 1], dest);
      ghost var l := ReadDiff(fields[i..]).value;
      DiffLineExactly(fields[i..], l);
      assert e == EntryOf(l) && |LineFields(l)| == consumed;
      assert fields[i..][consumed..] == fields[i + consumed..];
      BeforeBefore(out, [e], DiffRecords(fields[i + consumed..]));
      out := out + [e];
      i := i + consumed;
    }
    assert out + [] == out;
    r := Ok(out);
  }

  ghost predicate AllFine(lines: seq<DiffLine>) {
    forall i :: 0 <= i < |lines| ==> FineDiff(lines[i])
  }

  ghost function Entries(lines: seq<DiffLine>): seq<DiffEntry>
    requires AllFine(lines)
  {
    if lines == [] then [] else [EntryOf(lines[0])] + Entries(lines[1..])
  }

  ghost function AllFields(lines: seq<DiffLine>): seq<Bytes> {
    if lines == [] then [] else LineFields(lines[0]) + AllFields(lines[1..])
  }

  lemma {:induction false} DiffPrintedReads(lines: seq<DiffLine>)
    requires AllFine(lines)
    ensures DiffRecords(AllFields(lines)) == Ok(Entries(lines))
  {
    if lines != [] {
      var fields, n := AllFields(lines), |LineFields(lines[0])|;
      assert fields[..n] == LineFields(lines[0]) && fields[n..] == AllFields(lines[1..]);
      DiffLineExactly(fields, lines[0]);
      DiffPrintedReads(lines[1..]);
    }
  }

  lemma {:induction false} DiffReadIsPrinted(fields: seq<Bytes>) returns (lines: seq<DiffLine>)
    requires DiffRecords(fields).Ok?
    ensures AllFine(lines) && AllFields(lines) == fields
    decreases |fields|
  {
    if fields == [] {
      lines := [];
    } else {
      var l := ReadDiff(fields).value;
      DiffLineExactly(fields, l);
      hide FineDiff, EntryOf, ReadDiff;
      var n := |LineFields(l)|;
      var rest := DiffReadIsPrinted(fields[n..]);
      lines := [l] + rest;
      assert lines[1..] == rest;
      assert fields == fields[..n] + fields[n..] && fields[..n] == LineFields(l);
    }
  }

  /** The fields read as `es` exactly when they are fine lines printed one after the other, and `es` their entries. */
  lemma DiffExactly(fields: seq<Bytes>, es: seq<DiffEntry>)
    ensures DiffRecords(fields) == Ok(es)
       <==> exists lines :: AllFine(lines) && fields == AllFields(lines) && es == Entries(lines)
  {
    if DiffRecords(fields) == Ok(es) {
      var lines := DiffReadIsPrinted(fields);
      DiffPrintedReads(lines);
    }
    if lines :| AllFine(lines) && fields == AllFields(lines) && es == Entries(lines) {
      DiffPrintedReads(lines);
    }
  }

  /** As git prints an entry, with any score after the letter. */
  function LineOf(e: DiffEntry, score: Bytes): DiffLine {
    DiffLine(PrintMode(e.oldMode), PrintMode(e.newMode), e.oldOid, e.newOid, e.status + score, e.path, e.dest)
  }

  /** One letter, two ids, and paths without NUL: a destination exactly for renames and copies. */
  predicate Printable(e: DiffEntry) {
    && IsOid(e.oldOid) && IsOid(e.newOid)
    && |e.status| == 1 && Word(e.status)
    && (e.dest.Some? <==> IsMove(e.status[0]))
    && NUL !in e.path && (e.dest.Some? ==> NUL !in e.dest.value)
  }

  lemma LineOfIsFine(e: DiffEntry, score: Bytes)
    requires Printable(e) && Word(score)
    ensures FineDiff(LineOf(e, score)) && EntryOf(LineOf(e, score)) == e
    ensures Free(LineFields(LineOf(e, score)), NUL)
  {
    hide Join, Utf8.Valid, IsOid, ParseMode, PrintMode;
    var l := LineOf(e, score);
    var words := Words(l);
    PrintModeReads(e.oldMode);
    PrintModeReads(e.newMode);
    OidIsWord(e.oldOid);
    OidIsWord(e.newOid);
    assert forall i :: 0 <= i < |words| ==> Word(words[i]);
    JoinFree(words, SP, NUL);
    JoinAscii(words, SP);
    Utf8.AsciiIsValid(DiffHead(l));
    assert l.status[..1] == e.status;
  }

  lemma {:induction false} JoinAscii(parts: seq<Bytes>, sep: Byte)
    requires parts != [] && sep < 0x80 && forall i :: 0 <= i < |parts| ==> Utf8.Ascii(parts[i])
    ensures Utf8.Ascii(Join(parts, sep))
  {
    if |parts| > 1 {
      JoinAscii(parts[1..], sep);
    }
  }

  function LinesOf(es: seq<DiffEntry>, scores: seq<Bytes>): seq<DiffLine>
    requires |es| == |scores|
  {
    if es == [] then [] else [LineOf(es[0], scores[0])] + LinesOf(es[1..], scores[1..])
  }

  lemma {:induction false} LinesOfAreFine(es: seq<DiffEntry>, scores: seq<Bytes>)
    requires |es| == |scores|
    requires forall i :: 0 <= i < |es| ==> Printable(es[i]) && Word(scores[i])
    ensures var lines := LinesOf(es, scores);
      AllFine(lines) && Entries(lines) == es && Free(AllFields(lines), NUL)
  {
    hide LineOf, EntryOf, LineFields, FineDiff, Printable, Word;
    if es != [] {
      LineOfIsFine(es[0], scores[0]);
      LinesOfAreFine(es[1..], scores[1..]);
      assert es == [es[0]] + es[1..];
    }
  }

  /** Any records come back, two- and three-field ones mixed, whatever bytes but NUL their paths hold. */
  lemma DiffRoundTrip(es: seq<DiffEntry>, scores: seq<Bytes>)
    requires |es| == |scores|
    requires forall i :: 0 <= i < |es| ==> Printable(es[i]) && Word(scores[i])
    ensures DiffRecords(SplitNul(Terminated(AllFields(LinesOf(es, scores))))) == Ok(es)
  {
    var lines := LinesOf(es, scores);
    LinesOfAreFine(es, scores);
    SplitNulInverts(AllFields(lines));
    DiffPrintedReads(lines);
  }
}
