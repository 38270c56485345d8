/** The text of `/proc/self/maps`: what the parser makes of it, how the kernel prints it, and that the first inverts
    the second. */
module MapsText {
  import opened Bytes
  import opened Inputs
  import opened Mappings

  const NL: byte := 10
  const SPACE: byte := 32
  const DASH: byte := 45
  const BRACKET: byte := 91

  /** The two ways the parser gives up. */
  datatype MapsError = Open(errno: int) | Malformed

  datatype Parsed<+T> = Good(value: T) | Bad(error: MapsError)

  // ---- What the parser reads ----
  //
  // Every function takes the unread text, whose first byte (if any) is the character the parser is looking at.

  /** The value of a hex digit of either case. */
  function Nibble(c: byte): Option<nat> {
    if 48 <= c <= 57 then Some(c - 48)
    else if 65 <= c <= 70 then Some(c - 55)
    else if 97 <= c <= 102 then Some(c - 87)
    else None
  }

  /** A run of hex digits, shifted into a 64-bit word that forgets what falls out at the top. */
  function ScanHex(s: seq<byte>, hex: usize): (usize, seq<byte>) {
    if s == [] || Nibble(s[0]).None? then (hex, s)
    else ScanHex(s[1..], (hex * 16 + Nibble(s[0]).value) % U64)
  }

  /** The permission column up to its space, one bit per character that is not a dash, in a 16-bit word. */
  function ScanPerms(s: seq<byte>, flags: nat): Option<(nat, seq<byte>)> {
    if s == [] then None
    else if s[0] == SPACE then Some((flags, s[1..]))
    else ScanPerms(s[1..], (flags * 2 + if s[0] != DASH then 1 else 0) % U16)
  }

  function SkipSpaces(s: seq<byte>): (r: seq<byte>)
    ensures |r| <= |s|
  {
    if s == [] || s[0] != SPACE then s else SkipSpaces(s[1..])
  }

  function SkipToken(s: seq<byte>): (r: seq<byte>)
    ensures |r| <= |s|
  {
    if s == [] || s[0] == SPACE || s[0] == NL then s else SkipToken(s[1..])
  }

  function SkipField(s: seq<byte>): (r: seq<byte>)
    ensures |r| <= |s|
  {
    SkipSpaces(SkipToken(SkipSpaces(s)))
  }

  /** The rest of the line, and what follows from its newline on. */
  function Line(s: seq<byte>): seq<byte> {
    if s == [] || s[0] == NL then [] else [s[0]] + Line(s[1..])
  }

  function AfterLine(s: seq<byte>): (r: seq<byte>)
    ensures |r| <= |s|
  {
    if s == [] || s[0] == NL then s else AfterLine(s[1..])
  }

  function TrimEnd(s: seq<byte>): (r: seq<byte>)
    ensures |r| <= |s|
  {
    if s == [] || s[|s| - 1] != SPACE then s else TrimEnd(s[..|s| - 1])
  }

  /** A path as the engine stores it: cut to the buffer, then trimmed. */
  function StoredName(path: seq<byte>): Name {
    TrimEnd(path[..Min(|path|, FNAME_MAX - 1)])
  }

  /** `/dev/` */
  const DEV: seq<byte> := [47, 100, 101, 118, 47]
  /** `zero` */
  const ZERO: seq<byte> := [122, 101, 114, 111]

  predicate Starts(s: seq<byte>, prefix: seq<byte>) {
    |prefix| <= |s| && s[..|prefix|] == prefix
  }

  predicate IsDevicePath(name: seq<byte>) {
    Starts(name, DEV) && name[|DEV|..] != ZERO
  }

  predicate AnonymousName(name: seq<byte>) {
    name == [] || name[0] == BRACKET
  }

  function Listed(start: usize, end: usize, flags: nat, offset: usize, name: Name): Mapping {
    Mapping(start, end, offset, flags, AnonymousName(name), 0, false, false, IsDevicePath(name), name)
  }

  predicate LooksAt(s: seq<byte>, c: byte) {
    s != [] && s[0] == c
  }

  lemma ScanHexShrinks(s: seq<byte>, hex: usize)
    ensures |ScanHex(s, hex).1| <= |s|
  {
  }

  lemma ScanPermsShrinks(s: seq<byte>, flags: nat)
    ensures ScanPerms(s, flags).Some? ==> |ScanPerms(s, flags).value.1| < |s|
  {
  }

  /** The address range of a line, and the text after its space. */
  function ParseRange(s: seq<byte>): (r: Parsed<(usize, usize, seq<byte>)>)
    ensures r.Good? ==> |r.value.2| < |s|
  {
    ScanHexShrinks(s, 0);
    var (start, s1) := ScanHex(s, 0);
    if !LooksAt(s1, DASH) then Bad(Malformed) else
    ScanHexShrinks(s1[1..], 0);
    var (end, s2) := ScanHex(s1[1..], 0);
    if !LooksAt(s2, SPACE) then Bad(Malformed) else Good((start, end, s2[1..]))
  }

  /** The columns that are kept, without the path, and the text after them. */
  function ParseHead(s: seq<byte>): (r: Parsed<(Mapping, seq<byte>)>)
    ensures r.Good? ==> |r.value.1| < |s|
  {
    match ParseRange(s)
    case Bad(e) => Bad(e)
    case Good((start, end, s2)) =>
      ScanPermsShrinks(s2, 0);
      match ScanPerms(s2, 0)
      case None => Bad(Malformed)
      case Some((flags, s3)) =>
        ScanHexShrinks(s3, 0);
        var (offset, s4) := ScanHex(s3, 0);
        if !LooksAt(s4, SPACE) then Bad(Malformed) else Good((Listed(start, end, flags, offset, []), s4))
  }

  function WithName(m: Mapping, name: Name): Mapping {
    Listed(m.start, m.end, m.flags, m.offset, name)
  }

  /** One line, without consuming its newline. */
  function ParseLine(s: seq<byte>): (r: Parsed<(Mapping, seq<byte>)>)
    ensures r.Good? ==> |r.value.1| < |s|
  {
    match ParseHead(s)
    case Bad(e) => Bad(e)
    case Good((m, s4)) =>
      var s5 := SkipField(SkipField(s4));
      Good((WithName(m, StoredName(Line(s5))), AfterLine(s5)))
  }

  /** Prepend to the mappings parsed, or keep the error. */
  function Prefixed(done: seq<Mapping>, r: Parsed<seq<Mapping>>): Parsed<seq<Mapping>> {
    match r
    case Good(ms) => Good(done + ms)
    case Bad(e) => Bad(e)
  }

  function DropFirst(s: seq<byte>): seq<byte> {
    if s == [] then [] else s[1..]
  }

  /** All lines, but at most `capacity`. */
  function ParseMaps(s: seq<byte>, capacity: nat): Parsed<seq<Mapping>>
    decreases |s|
  {
    if capacity == 0 || s == [] then Good([]) else
    match ParseLine(s)
    case Bad(e) => Bad(e)
    case Good((m, rest)) =>
      Prefixed([m], ParseMaps(DropFirst(rest), capacity - 1))
  }

  // ---- What the kernel prints ----

  /** A line's content. Device and inode columns are any tokens; `gap` is the column padding before the path. */
  datatype MapsLine = MapsLine(
    start: usize, end: usize, r: bool, w: bool, x: bool, shared: bool, offset: usize,
    dev: seq<byte>, inode: seq<byte>, gap: nat, path: seq<byte>, width: nat)

  predicate Token(s: seq<byte>) {
    s != [] && forall i | 0 <= i < |s| :: s[i] != SPACE && s[i] != NL
  }

  /** The path holds no newline and does not start with a space, and something separates it from the inode. */
  predicate Printable(l: MapsLine) {
    && Token(l.dev) && Token(l.inode)
    && (forall i | 0 <= i < |l.path| :: l.path[i] != NL)
    && (l.path != [] ==> l.path[0] != SPACE && l.gap > 0)
  }

  function Digit(d: nat): byte
    requires d < 16
  {
    if d < 10 then 48 + d else 87 + d
  }

  /** Lower-case hex digits, most significant first. */
  function HexDigits(n: nat): seq<byte> {
    if n < 16 then [Digit(n)] else HexDigits(n / 16) + [Digit(n % 16)]
  }

  /** Padded with zeros to at least `width` digits. */
  function Hex(n: nat, width: nat): seq<byte> {
    var ds := HexDigits(n);
    Repeat(48, if |ds| < width then width - |ds| else 0) + ds
  }

  function Repeat(c: byte, n: nat): (s: seq<byte>)
    ensures |s| == n
  {
    seq(n, i => c)
  }

  function PermColumn(l: MapsLine): seq<byte> {
    [if l.r then 114 else DASH, if l.w then 119 else DASH, if l.x then 120 else DASH, if l.shared then 115 else 112]
  }

  function PrintHead(l: MapsLine, tail: seq<byte>): seq<byte> {
    Hex(l.start, l.width) + ([DASH] + (Hex(l.end, l.width) + ([SPACE] +
      (PermColumn(l) + ([SPACE] + (Hex(l.offset, l.width) + ([SPACE] + tail)))))))
  }

  /** The line, followed by `tail`. */
  function PrintLine(l: MapsLine, tail: seq<byte>): seq<byte> {
    PrintHead(l, l.dev + ([SPACE] + (l.inode + (Repeat(SPACE, l.gap) + (l.path + ([NL] + tail))))))
  }

  function PrintMaps(ls: seq<MapsLine>): seq<byte> {
    if ls == [] then [] else PrintLine(ls[0], PrintMaps(ls[1..]))
  }

  /** What a listed mapping becomes in memory. Both `p` and `s` set the lowest permission bit. */
  function Recorded(l: MapsLine): Mapping {
    Listed(l.start, l.end, PermBits(l.r, l.w, l.x, true), l.offset, StoredName(l.path))
  }

  function RecordedAll(ls: seq<MapsLine>): seq<Mapping> {
    seq(|ls|, i requires 0 <= i < |ls| => Recorded(ls[i]))
  }

  // ---- The parser inverts the printer ----

  /** The text after a number must not look like more of it. */
  predicate Stops(tail: seq<byte>) {
    tail == [] || Nibble(tail[0]).None?
  }

  /** Reading one more digit. */
  lemma ScanDigit(q: nat, d: nat, n: nat, tail: seq<byte>)
    requires d < 16 && n == 16 * q + d && n < U64
    ensures ScanHex([Digit(d)] + tail, q) == ScanHex(tail, n)
  {
    assert ([Digit(d)] + tail)[1..] == tail;
    assert Nibble(Digit(d)) == Some(d);
  }

  lemma {:induction false} ScanDigits(n: nat, tail: seq<byte>)
    requires n < U64
    ensures ScanHex(HexDigits(n) + tail, 0) == ScanHex(tail, n)
    decreases n
  {
    if n < 16 {
      ScanDigit(0, n, n, tail);
    } else {
      var q, d := n / 16, n % 16;
      var last := [Digit(d)];
      ScanDigits(q, last + tail);
      var front := HexDigits(q);
      assert front + last + tail == front + (last + tail);
      ScanDigit(q, d, n, tail);
    }
  }

  lemma {:induction false} ScanZeros(k: nat, tail: seq<byte>)
    ensures ScanHex(Repeat(48, k) + tail, 0) == ScanHex(tail, 0)
  {
    if k == 0 {
      assert Repeat(48, k) + tail == tail;
    } else {
      ScanZeros(k - 1, tail);
      assert (Repeat(48, k) + tail)[1..] == Repeat(48, k - 1) + tail;
    }
  }

  /** A printed 64-bit number is read back whole, whatever its padding. */
  lemma ScanPrinted(n: usize, width: nat, tail: seq<byte>)
    requires Stops(tail)
    ensures ScanHex(Hex(n, width) + tail, 0) == (n, tail)
  {
    var ds := HexDigits(n);
    var k := if |ds| < width then width - |ds| else 0;
    ScanZeros(k, ds + tail);
    assert Hex(n, width) + tail == Repeat(48, k) + (ds + tail);
    ScanDigits(n, tail);
  }

  lemma ScanPermColumn(l: MapsLine, tail: seq<byte>)
    ensures ScanPerms(PermColumn(l) + ([SPACE] + tail), 0) == Some((PermBits(l.r, l.w, l.x, true), tail))
  {
    var c, end := PermColumn(l), [SPACE] + tail;
    FourPerms(c[0], c[1], c[2], c[3], end);
    assert c == [c[0], c[1], c[2], c[3]];
    assert end[1..] == tail;
  }

  function PermBit(c: byte): nat {
    if c != DASH then 1 else 0
  }

  lemma FourPerms(a: byte, b: byte, c: byte, d: byte, end: seq<byte>)
    requires a != SPACE && b != SPACE && c != SPACE && d != SPACE
    ensures ScanPerms([a, b, c, d] + end, 0)
         == ScanPerms(end, 8 * PermBit(a) + 4 * PermBit(b) + 2 * PermBit(c) + PermBit(d))
  {
    var t1, t2, t3 := [b, c, d] + end, [c, d] + end, [d] + end;
    assert [a, b, c, d] + end == [a] + t1 && t1 == [b] + t2 && t2 == [c] + t3;
    var f1 := PermBit(a);
    var f2 := 2 * f1 + PermBit(b);
    var f3 := 2 * f2 + PermBit(c);
    PermStep(a, t1, 0);
    PermStep(b, t2, f1);
    PermStep(c, t3, f2);
    PermStep(d, end, f3);
  }

  lemma PermStep(c: byte, s: seq<byte>, flags: nat)
    requires c != SPACE && flags < 8
    ensures ScanPerms([c] + s, flags) == ScanPerms(s, 2 * flags + PermBit(c))
  {
    assert ([c] + s)[1..] == s;
  }

  lemma HeadReadsBack(l: MapsLine, tail: seq<byte>)
    ensures ParseHead(PrintHead(l, tail)) ==
      Good((Listed(l.start, l.end, PermBits(l.r, l.w, l.x, true), l.offset, []), [SPACE] + tail))
  {
    var t4 := [SPACE] + tail;
    var t3 := Hex(l.offset, l.width) + t4;
    var t2 := [SPACE] + (PermColumn(l) + ([SPACE] + t3));
    var t1 := [DASH] + (Hex(l.end, l.width) + t2);
    ScanPrinted(l.start, l.width, t1);
    ScanPrinted(l.end, l.width, t2);
    ScanPermColumn(l, t3);
    ScanPrinted(l.offset, l.width, t4);
    assert t1[1..] == Hex(l.end, l.width) + t2;
    assert t2[1..] == PermColumn(l) + ([SPACE] + t3);
  }

  lemma {:induction false} SkipPrintedToken(t: seq<byte>, tail: seq<byte>)
    requires forall i | 0 <= i < |t| :: t[i] != SPACE && t[i] != NL
    requires tail != [] && (tail[0] == SPACE || tail[0] == NL)
    ensures SkipToken(t + tail) == tail
  {
    if t == [] {
      assert t + tail == tail;
    } else {
      SkipPrintedToken(t[1..], tail);
      assert (t + tail)[1..] == t[1..] + tail;
    }
  }

  lemma {:induction false} SkipGap(k: nat, tail: seq<byte>)
    requires tail != [] && tail[0] != SPACE
    ensures SkipSpaces(Repeat(SPACE, k) + tail) == tail
  {
    if k == 0 {
      assert Repeat(SPACE, k) + tail == tail;
    } else {
      SkipGap(k - 1, tail);
      assert (Repeat(SPACE, k) + tail)[1..] == Repeat(SPACE, k - 1) + tail;
    }
  }

  /** A field between two gaps is skipped. */
  lemma SkipPrintedField(before: nat, t: seq<byte>, after: nat, tail: seq<byte>)
    requires Token(t) && tail != [] && tail[0] != SPACE && (after > 0 || tail[0] == NL)
    ensures SkipField(Repeat(SPACE, before) + (t + (Repeat(SPACE, after) + tail))) == tail
  {
    var gap := Repeat(SPACE, after) + tail;
    assert t + gap != [] && (t + gap)[0] == t[0];
    SkipGap(before, t + gap);
    SkipPrintedToken(t, gap);
    SkipGap(after, tail);
  }

  lemma {:induction false} LineReadsBack(path: seq<byte>, tail: seq<byte>)
    requires forall i | 0 <= i < |path| :: path[i] != NL
    ensures Line(path + ([NL] + tail)) == path && AfterLine(path + ([NL] + tail)) == [NL] + tail
  {
    if path == [] {
      assert path + ([NL] + tail) == [NL] + tail;
    } else {
      LineReadsBack(path[1..], tail);
      assert (path + ([NL] + tail))[1..] == path[1..] + ([NL] + tail);
    }
  }

  lemma PrintedLineReadsBack(l: MapsLine, tail: seq<byte>)
    requires Printable(l)
    ensures ParseLine(PrintLine(l, tail)) == Good((Recorded(l), [NL] + tail))
  {
    var name := l.path + ([NL] + tail);
    var second := l.inode + (Repeat(SPACE, l.gap) + name);
    HeadReadsBack(l, l.dev + ([SPACE] + second));
    assert name[0] == if l.path == [] then NL else l.path[0];
    assert second[0] == l.inode[0];
    assert Repeat(SPACE, 1) == [SPACE] && Repeat(SPACE, 0) == [];
    SkipPrintedField(1, l.dev, 1, second);
    SkipPrintedField(0, l.inode, l.gap, name);
    assert Repeat(SPACE, 0) + second == second;
    LineReadsBack(l.path, tail);
  }

  /** One well-formed line in front of more text. */
  lemma ParseMapsStep(s: seq<byte>, m: Mapping, rest: seq<byte>, capacity: nat)
    requires ParseLine(s) == Good((m, rest)) && capacity > 0
    ensures ParseMaps(s, capacity) == Prefixed([m], ParseMaps(DropFirst(rest), capacity - 1))
  {
  }

  lemma FirstLineThen(l: MapsLine, tail: seq<byte>, capacity: nat, ms: seq<Mapping>)
    requires Printable(l) && capacity > 0 && ParseMaps(tail, capacity - 1) == Good(ms)
    ensures ParseMaps(PrintLine(l, tail), capacity) == Good([Recorded(l)] + ms)
  {
    PrintedLineReadsBack(l, tail);
    ParseMapsStep(PrintLine(l, tail), Recorded(l), [NL] + tail, capacity);
    assert DropFirst([NL] + tail) == tail;
  }

  lemma RecordedFirst(ls: seq<MapsLine>, k: nat)
    requires 0 < k <= |ls|
    ensures RecordedAll(ls[..k]) == [Recorded(ls[0])] + RecordedAll(ls[1..][..k - 1])
  {
    assert ls[..k][1..] == ls[1..][..k - 1];
  }

  function RecordedUpTo(ls: seq<MapsLine>, capacity: nat): seq<Mapping> {
    if ls == [] || capacity == 0 then [] else [Recorded(ls[0])] + RecordedUpTo(ls[1..], capacity - 1)
  }

  lemma {:induction false} ParsesUpTo(ls: seq<MapsLine>, capacity: nat)
    requires forall i | 0 <= i < |ls| :: Printable(ls[i])
    ensures ParseMaps(PrintMaps(ls), capacity) == Good(RecordedUpTo(ls, capacity))
  {
    if ls != [] && capacity > 0 {
      ParsesUpTo(ls[1..], capacity - 1);
      FirstLineThen(ls[0], PrintMaps(ls[1..]), capacity, RecordedUpTo(ls[1..], capacity - 1));
    }
  }

  lemma {:induction false} UpToIsPrefix(ls: seq<MapsLine>, capacity: nat)
    ensures RecordedUpTo(ls, capacity) == RecordedAll(ls[..Min(|ls|, capacity)])
  {
    if ls == [] || capacity == 0 {
      assert RecordedAll(ls[..0]) == [];
    } else {
      UpToIsPrefix(ls[1..], capacity - 1);
      RecordedFirst(ls, Min(|ls|, capacity));
    }
  }

  /** Parsing a printed listing gives back the mappings, up to the capacity. */
  lemma ParserInvertsPrinter(ls: seq<MapsLine>, capacity: nat)
    requires forall i | 0 <= i < |ls| :: Printable(ls[i])
    ensures ParseMaps(PrintMaps(ls), capacity) == Good(RecordedAll(ls[..Min(|ls|, capacity)]))
  {
    ParsesUpTo(ls, capacity);
    UpToIsPrefix(ls, capacity);
  }

  // ---- What a mapping read from the text says, field by field ----

  const LOWER_HEX: seq<byte> := [48, 49, 50, 51, 52, 53, 54, 55, 56, 57, 97, 98, 99, 100, 101, 102]
  const UPPER_HEX: seq<byte> := [48, 49, 50, 51, 52, 53, 54, 55, 56, 57, 65, 66, 67, 68, 69, 70]

  /** A digit stands for its position in the alphabet, in either case, and nothing else is a digit. */
  lemma NibbleMeans(c: byte, d: nat)
    ensures Nibble(c) == Some(d) <==> d < 16 && (LOWER_HEX[d] == c || UPPER_HEX[d] == c)
  {
  }

  /** The mapping is a device: its name is `/dev/` and something other than `zero`. */
  predicate NamesDevice(name: seq<byte>) {
    |name| >= 5 && name[..5] == [47, 100, 101, 118, 47] && name[5..] != [122, 101, 114, 111]
  }

  /** What the name decides. */
  predicate MarkedByName(m: Mapping) {
    && (m.isDevice <==> NamesDevice(m.name))
    && (m.isAnon <==> m.name == [] || m.name[0] == 91)
    && m.writeSize == 0 && !m.dontdump && !m.hasAnonPages
  }

  lemma ListedIsMarked(start: usize, end: usize, flags: nat, offset: usize, name: Name)
    ensures MarkedByName(Listed(start, end, flags, offset, name))
  {
  }

  lemma ParsedLineIsMarked(s: seq<byte>)
    requires ParseLine(s).Good?
    ensures MarkedByName(ParseLine(s).value.0)
  {
  }

  /** Whatever the text, a mapping read from it is marked as a device or anonymous by its name alone. */
  lemma {:induction false} ParsedAreMarked(s: seq<byte>, capacity: nat)
    requires ParseMaps(s, capacity).Good?
    ensures forall m | m in ParseMaps(s, capacity).value :: MarkedByName(m)
    decreases |s|
  {
    if capacity > 0 && s != [] {
      ParsedLineIsMarked(s);
      ParsedAreMarked(DropFirst(ParseLine(s).value.1), capacity - 1);
    }
  }

  /** `name` is the longest prefix of the first 255 bytes of `path` that does not end in a space. */
  predicate LongestName(path: seq<byte>, name: seq<byte>) {
    var cut := path[..Min(|path|, 255)];
    && name <= cut && (name != [] ==> name[|name| - 1] != 32)
    && forall i | |name| <= i < |cut| :: cut[i] == 32
  }

  lemma {:induction false} TrimEndIsLongest(s: seq<byte>)
    ensures TrimEnd(s) <= s && (TrimEnd(s) != [] ==> TrimEnd(s)[|TrimEnd(s)| - 1] != 32)
    ensures forall i | |TrimEnd(s)| <= i < |s| :: s[i] == 32
  {
    if s != [] && s[|s| - 1] == SPACE {
      TrimEndIsLongest(s[..|s| - 1]);
      forall i | |TrimEnd(s)| <= i < |s|
        ensures s[i] == 32
      {
        if i < |s| - 1 {
          assert s[..|s| - 1][i] == s[i];
        }
      }
    }
  }

  lemma StoredNameIsLongest(path: seq<byte>)
    ensures LongestName(path, StoredName(path))
  {
    TrimEndIsLongest(path[..Min(|path|, 255)]);
  }

  /** No other name is. */
  lemma LongestNameUnique(path: seq<byte>, a: seq<byte>, b: seq<byte>)
    requires LongestName(path, a) && LongestName(path, b)
    ensures a == b
  {
    NotLonger(path, a, b);
    NotLonger(path, b, a);
  }

  lemma NotLonger(path: seq<byte>, a: seq<byte>, b: seq<byte>)
    requires LongestName(path, a) && LongestName(path, b)
    ensures |a| <= |b|
  {
    var cut := path[..Min(|path|, 255)];
    if a != [] {
      assert cut[|a| - 1] == a[|a| - 1];
    }
  }

  /** The mapping `m` says what the printed line `l` says. The low four permission bits are `r`, `w`, `x` and one that
      is always set. */
  predicate Says(l: MapsLine, m: Mapping) {
    && m.start == l.start && m.end == l.end && m.offset == l.offset
    && m.flags < 16 && (Bit(m.flags, 8) <==> l.r) && (Bit(m.flags, 4) <==> l.w) && (Bit(m.flags, 2) <==> l.x)
    && Bit(m.flags, 1) && LongestName(l.path, m.name) && MarkedByName(m)
  }

  lemma RecordedSays(l: MapsLine)
    ensures Says(l, Recorded(l))
  {
    StoredNameIsLongest(l.path);
    PermBitsSay(l.r, l.w, l.x);
    ListedIsMarked(l.start, l.end, PermBits(l.r, l.w, l.x, true), l.offset, StoredName(l.path));
  }

  lemma PermBitsSay(r: bool, w: bool, x: bool)
    ensures
      var flags := PermBits(r, w, x, true);
      flags < 16 && (Bit(flags, 8) <==> r) && (Bit(flags, 4) <==> w) && (Bit(flags, 2) <==> x) && Bit(flags, 1)
  {
  }

  /** Parsing a printed listing gives, for each line in order and up to the capacity, a mapping that says what the line
      says. */
  lemma ParsedSaysPrinted(ls: seq<MapsLine>, capacity: nat)
    requires forall i | 0 <= i < |ls| :: Printable(ls[i])
    ensures
      var r := ParseMaps(PrintMaps(ls), capacity);
      && r.Good? && |r.value| == Min(|ls|, capacity) && forall i | 0 <= i < |r.value| :: Says(ls[i], r.value[i])
  {
    ParserInvertsPrinter(ls, capacity);
    forall i | 0 <= i < Min(|ls|, capacity)
      ensures Says(ls[i], Recorded(ls[i]))
    {
      RecordedSays(ls[i]);
    }
  }

  /** One printed line, read by itself. */
  lemma PrintedLineSays(l: MapsLine, tail: seq<byte>)
    requires Printable(l)
    ensures
      var r := ParseLine(PrintLine(l, tail));
      r.Good? && Says(l, r.value.0) && r.value.1 == [NL] + tail
  {
    PrintedLineReadsBack(l, tail);
    RecordedSays(l);
  }

  // ---- What the parser accepts ----

  predicate HexRun(h: seq<byte>) {
    forall i | 0 <= i < |h| :: Nibble(h[i]).Some?
  }

  /** The number a run of hex digits denotes, without any bound. */
  function HexNumber(h: seq<byte>): nat
    requires HexRun(h)
  {
    if h == [] then 0 else HexNumber(h[..|h| - 1]) * 16 + Nibble(h[|h| - 1]).value
  }

  lemma WrapStep(n: nat, d: nat)
    ensures (n % U64 * 16 + d) % U64 == (n * 16 + d) % U64
  {
    WrapAround(n % U64 * 16 + d, n / U64 * 16);
  }

  lemma WrapAround(n: nat, k: nat)
    ensures (n + U64 * k) % U64 == n % U64
  {
  }

  /** Scanning on from the digits `h` already read. */
  lemma {:induction false} ScanRun(h: seq<byte>, more: seq<byte>, tail: seq<byte>)
    requires HexRun(h) && HexRun(more) && Stops(tail)
    ensures HexRun(h + more) && ScanHex(more + tail, HexNumber(h) % U64) == (HexNumber(h + more) % U64, tail)
    decreases |more|
  {
    if more == [] {
      assert h + more == h && more + tail == tail;
    } else {
      var next := h + [more[0]];
      NumberStep(h, more[0]);
      ScanRun(next, more[1..], tail);
      assert next + more[1..] == h + more && (more + tail)[1..] == more[1..] + tail;
    }
  }

  lemma NumberStep(h: seq<byte>, c: byte)
    requires HexRun(h) && Nibble(c).Some?
    ensures HexRun(h + [c])
    ensures HexNumber(h + [c]) % U64 == (HexNumber(h) % U64 * 16 + Nibble(c).value) % U64
  {
    var next := h + [c];
    assert next[..|h|] == h;
    WrapStep(HexNumber(h), Nibble(c).value);
  }

  /** The scan takes the digits at the front of a text and leaves the rest. */
  lemma {:induction false} SplitRun(s: seq<byte>, hex: usize) returns (h: seq<byte>)
    ensures HexRun(h) && s == h + ScanHex(s, hex).1
  {
    if s == [] || Nibble(s[0]).None? {
      h := [];
    } else {
      h := SplitRun(s[1..], (hex * 16 + Nibble(s[0]).value) % U64);
      h := [s[0]] + h;
    }
  }

  lemma ColumnGrows(s: seq<byte>, rest: seq<byte>)
    requires s != [] && s[0] != SPACE && exists p :: SPACE !in p && s[1..] == p + ([SPACE] + rest)
    ensures exists p :: SPACE !in p && s == p + ([SPACE] + rest)
  {
    var p :| SPACE !in p && s[1..] == p + ([SPACE] + rest);
    var more := [s[0]] + p;
    assert s == more + ([SPACE] + rest);
    assert SPACE !in more;
  }

  /** The permission column ends at the first space, and there must be one. */
  lemma {:induction false} ScanPermsMeans(s: seq<byte>, flags: nat)
    ensures ScanPerms(s, flags).Some? <==> SPACE in s
    ensures SPACE in s ==> exists p :: SPACE !in p && s == p + ([SPACE] + ScanPerms(s, flags).value.1)
  {
    if s != [] && s[0] != SPACE {
      var flags' := (flags * 2 + if s[0] != DASH then 1 else 0) % U16;
      ScanPermsMeans(s[1..], flags');
      if SPACE in s {
        ColumnGrows(s, ScanPerms(s, flags).value.1);
      }
    } else if s != [] {
      assert s == [] + ([SPACE] + s[1..]);
    }
  }

  /** The shape of a line's kept columns: two numbers joined by a dash, a column without spaces, a number, each of the
      last three ended by a space. Any of the four may be empty. */
  predicate HeadShape(s: seq<byte>, start: seq<byte>, end: seq<byte>, perms: seq<byte>, offset: seq<byte>,
                      tail: seq<byte>)
  {
    && HexRun(start) && HexRun(end) && SPACE !in perms && HexRun(offset)
    && s == start + ([DASH] + (end + ([SPACE] + (perms + ([SPACE] + (offset + ([SPACE] + tail)))))))
  }

  /** The head of a line is accepted exactly when it has that shape, and then its numbers are those of the text,
      modulo 2^64. */
  lemma HeadAcceptedIff(s: seq<byte>)
    ensures ParseHead(s).Good? <==> exists a, b, p, o, tail :: HeadShape(s, a, b, p, o, tail)
    ensures forall a, b, p, o, tail | HeadShape(s, a, b, p, o, tail) ::
      && ParseHead(s).Good? && ParseHead(s).value.1 == [SPACE] + tail
      && var m := ParseHead(s).value.0;
      && m.start == HexNumber(a) % U64 && m.end == HexNumber(b) % U64 && m.offset == HexNumber(o) % U64
  {
    if ParseHead(s).Good? {
      HeadHasShape(s);
    }
    forall a, b, p, o, tail | HeadShape(s, a, b, p, o, tail)
      ensures
        && ParseHead(s).Good? && ParseHead(s).value.1 == [SPACE] + tail
        && var m := ParseHead(s).value.0;
        && m.start == HexNumber(a) % U64 && m.end == HexNumber(b) % U64 && m.offset == HexNumber(o) % U64
    {
      ShapeIsRead(s, a, b, p, o, tail);
    }
  }

  lemma HeadHasShape(s: seq<byte>)
    requires ParseHead(s).Good?
    ensures exists a, b, p, o, tail :: HeadShape(s, a, b, p, o, tail)
  {
    var a, b, s2 := RangeHasShape(s);
    var p, o, tail := ColumnsHaveShape(s2);
    assert HeadShape(s, a, b, p, o, tail);
  }

  /** A number and the character `c` after it. */
  lemma NumberThen(s: seq<byte>, c: byte) returns (h: seq<byte>, rest: seq<byte>)
    requires LooksAt(ScanHex(s, 0).1, c)
    ensures HexRun(h) && s == h + ([c] + rest) && rest == ScanHex(s, 0).1[1..]
  {
    h := SplitRun(s, 0);
    var t := ScanHex(s, 0).1;
    rest := t[1..];
    assert t == [c] + rest;
  }

  lemma RangeHasShape(s: seq<byte>) returns (a: seq<byte>, b: seq<byte>, rest: seq<byte>)
    requires ParseRange(s).Good?
    ensures HexRun(a) && HexRun(b) && s == a + ([DASH] + (b + ([SPACE] + rest))) && rest == ParseRange(s).value.2
  {
    var x;
    a, x := NumberThen(s, DASH);
    b, rest := NumberThen(x, SPACE);
  }

  lemma ColumnsHaveShape(s: seq<byte>) returns (p: seq<byte>, o: seq<byte>, tail: seq<byte>)
    requires ScanPerms(s, 0).Some? && LooksAt(ScanHex(ScanPerms(s, 0).value.1, 0).1, SPACE)
    ensures SPACE !in p && HexRun(o) && s == p + ([SPACE] + (o + ([SPACE] + tail)))
  {
    ScanPermsMeans(s, 0);
    var rest := ScanPerms(s, 0).value.1;
    var column :| SPACE !in column && s == column + ([SPACE] + rest);
    p := column;
    o, tail := NumberThen(rest, SPACE);
  }

  lemma {:induction false} ScanPermsStops(p: seq<byte>, tail: seq<byte>, flags: nat)
    requires SPACE !in p
    ensures var r := ScanPerms(p + ([SPACE] + tail), flags); r.Some? && r.value.1 == tail
  {
    var s := p + ([SPACE] + tail);
    if p == [] {
      assert s == [SPACE] + tail;
    } else {
      ScanPermsStops(p[1..], tail, (flags * 2 + if p[0] != DASH then 1 else 0) % U16);
      assert s[1..] == p[1..] + ([SPACE] + tail);
    }
  }

  lemma ShapeIsRead(s: seq<byte>, a: seq<byte>, b: seq<byte>, p: seq<byte>, o: seq<byte>, tail: seq<byte>)
    requires HeadShape(s, a, b, p, o, tail)
    ensures ParseHead(s).Good? && ParseHead(s).value.1 == [SPACE] + tail
    ensures
      var m := ParseHead(s).value.0;
      m.start == HexNumber(a) % U64 && m.end == HexNumber(b) % U64 && m.offset == HexNumber(o) % U64
  {
    var t4 := [SPACE] + tail;
    var t3 := o + t4;
    var t2 := [SPACE] + (p + ([SPACE] + t3));
    var t1 := [DASH] + (b + t2);
    ReadNumber(a, t1);
    ReadNumber(b, t2);
    ScanPermsStops(p, t3, 0);
    ReadNumber(o, t4);
    assert t1[1..] == b + t2 && t2[1..] == p + ([SPACE] + t3);
  }

  lemma ReadNumber(h: seq<byte>, tail: seq<byte>)
    requires HexRun(h) && Stops(tail)
    ensures ScanHex(h + tail, 0) == (HexNumber(h) % U64, tail)
  {
    ScanRun([], h, tail);
    assert [] + h == h;
  }
}
