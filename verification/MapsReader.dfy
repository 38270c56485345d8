/** Reading `/proc/self/maps` through a fixed buffer, whatever chunks the kernel hands out. */
module MapsReader {
  import opened Bytes
  import opened Kernel
  import opened Inputs
  import opened MapsText

  const IO_BUF_SIZE: nat := 4096

  /** An open file: `text` is all it will ever deliver, up to its end or the first read error. */
  class InFd {
    const text: seq<byte>
    var pos: nat
    /** How many more calls a signal may interrupt. */
    var interrupts: nat

    constructor (text: seq<byte>, interrupts: nat)
      ensures this.text == text && pos == 0
    {
      this.text, pos, this.interrupts := text, 0, interrupts;
    }

    ghost function Unread(): seq<byte>
      reads this
    {
      if pos <= |text| then text[pos..] else []
    }

    method SysRead(dst: array<byte>) returns (r: SysResult)
      requires dst.Length > 0
      modifies this, dst
      ensures interrupts <= old(interrupts)
      ensures r == Err(EINTR) ==> interrupts < old(interrupts) && Unread() == old(Unread())
      ensures r.Ok? && r.n > 0 ==>
        r.n <= dst.Length && old(Unread()) == dst[..r.n] + Unread()
      ensures r == Ok(0) || (r.Err? && r.errno != EINTR) ==> old(Unread()) == [] && Unread() == []
    {
      if {
        case interrupts > 0 =>
          interrupts := interrupts - 1;
          return Err(EINTR);
        case pos >= |text| =>
          var failed: bool := *;
          if failed {
            var e: int :| e != EINTR;
            return Err(e);
          }
          return Ok(0);
        case pos < |text| =>
          var n: nat :| 0 < n <= dst.Length && pos + n <= |text| by {
            assert 0 < 1 <= dst.Length && pos + 1 <= |text|;
          }
          forall i | 0 <= i < n {
            dst[i] := text[pos + i];
          }
          assert dst[..n] == text[pos..pos + n];
          pos := pos + n;
          return Ok(n);
      }
    }
  }

  /** The text still to be read, seen from a parser that holds `ch`. */
  function Ahead(ch: Option<byte>, rest: seq<byte>): seq<byte> {
    if ch.None? then [] else [ch.value] + rest
  }

  /** `Io`: a buffered byte source. */
  class Io {
    const fd: InFd
    const buf: array<byte>
    var data: nat
    var end: nat

    constructor (fd: InFd)
      ensures Valid() && fresh(buf) && this.fd == fd && Rest() == fd.Unread()
    {
      this.fd, buf, data, end := fd, new byte[IO_BUF_SIZE], 0, 0;
    }

    ghost predicate Valid()
      reads this
    {
      data <= end <= buf.Length == IO_BUF_SIZE
    }

    /** Everything not yet handed out: the rest of the buffer, then the rest of the file. */
    ghost function Rest(): seq<byte>
      reads this, fd, buf
      requires Valid()
    {
      buf[data..end] + fd.Unread()
    }

    /** `ch` is what `GetChar` last returned: nothing follows the end of the text. */
    ghost predicate Holds(ch: Option<byte>)
      reads this, fd, buf
    {
      Valid() && (ch.None? ==> Rest() == [])
    }

    /** The text from `ch` on. */
    ghost function Text(ch: Option<byte>): seq<byte>
      reads this, fd, buf
      requires Valid()
    {
      Ahead(ch, Rest())
    }

    /** Refill an empty buffer. */
    method Fill() returns (more: bool)
      requires Valid() && data == end
      modifies this, fd, buf
      ensures Valid() && Rest() == old(Rest())
      ensures if more then data < end else Rest() == []
    {
      var r := fd.SysRead(buf);
      while r == Err(EINTR)
        invariant Valid() && data == end
        invariant r == Err(EINTR) ==> fd.Unread() == old(fd.Unread())
        invariant r.Ok? && r.n > 0 ==> r.n <= buf.Length && old(fd.Unread()) == buf[..r.n] + fd.Unread()
        invariant r == Ok(0) || (r.Err? && r.errno != EINTR) ==> old(fd.Unread()) == [] && fd.Unread() == []
        decreases fd.interrupts, r == Err(EINTR)
      {
        r := fd.SysRead(buf);
      }
      if r.Err? || r.n == 0 {
        return false;
      }
      data, end := 0, r.n;
      return true;
    }

    /** `get_char`. */
    method GetChar() returns (ch: Option<byte>)
      requires Valid()
      modifies this, fd, buf
      ensures Holds(ch) && Text(ch) == old(Rest())
    {
      if data == end {
        var more := Fill();
        if !more {
          return None;
        }
      }
      ch := Some(buf[data]);
      data := data + 1;
      FirstOf(buf[..], data - 1, end, fd.Unread());
    }

    /** Drop the character in hand. */
    method Next(ghost ch: Option<byte>) returns (next: Option<byte>)
      requires Holds(ch) && ch.Some?
      modifies this, fd, buf
      ensures Holds(next) && Text(next) == old(Text(ch))[1..]
    {
      next := GetChar();
    }

    /** `get_hex_helper`, from a first character already read. */
    method GetHexFrom(init: Option<byte>) returns (hex: usize, ch: Option<byte>)
      requires Holds(init)
      modifies this, fd, buf
      ensures Holds(ch) && (hex, Text(ch)) == ScanHex(old(Text(init)), 0)
    {
      hex, ch := 0, init;
      ghost var all, here := Text(init), Text(init);
      while ch.Some? && Nibble(ch.value).Some?
        invariant Holds(ch) && Text(ch) == here && ScanHex(here, hex) == ScanHex(all, 0)
        decreases |here|
      {
        hex, ch := TakeDigit(hex, ch);
        here := here[1..];
      }
    }

    /** One digit of a number. */
    method TakeDigit(hex: usize, ch: Option<byte>) returns (hex': usize, ch': Option<byte>)
      requires Holds(ch) && ch.Some? && Nibble(ch.value).Some?
      modifies this, fd, buf
      ensures Holds(ch') && Text(ch') == old(Text(ch))[1..]
      ensures ScanHex(Text(ch'), hex') == ScanHex(old(Text(ch)), hex)
    {
      HexStep(Text(ch), hex);
      hex' := (hex * 16 + Nibble(ch.value).value) % U64;
      ch' := Next(ch);
    }

    /** `get_hex`. */
    method GetHex() returns (hex: usize, ch: Option<byte>)
      requires Valid()
      modifies this, fd, buf
      ensures Holds(ch) && (hex, Text(ch)) == ScanHex(old(Rest()), 0)
    {
      var init := GetChar();
      hex, ch := GetHexFrom(init);
    }

    /** The permission loop; `None` at the end of the text. */
    method GetPerms() returns (perms: Option<nat>)
      requires Valid()
      modifies this, fd, buf
      ensures Valid()
      ensures
        var scan := ScanPerms(old(Rest()), 0);
        if perms.Some? then scan == Some((perms.value, Rest())) else scan.None?
    {
      var flags: nat := 0;
      var ch := GetChar();
      while ch.Some? && ch.value != SPACE
        invariant Holds(ch) && ScanPerms(Text(ch), flags) == ScanPerms(old(Rest()), 0)
        decreases |Text(ch)|
      {
        flags := (flags * 2 + if ch.value != DASH then 1 else 0) % U16;
        ch := Next(ch);
      }
      return if ch.None? then None else Some(flags);
    }

    method PassSpaces(init: Option<byte>) returns (ch: Option<byte>)
      requires Holds(init)
      modifies this, fd, buf
      ensures Holds(ch) && Text(ch) == SkipSpaces(old(Text(init)))
    {
      ch := init;
      while ch == Some(SPACE)
        invariant Holds(ch) && SkipSpaces(Text(ch)) == SkipSpaces(old(Text(init)))
        decreases |Text(ch)|
      {
        ch := Next(ch);
      }
    }

    method PassToken(init: Option<byte>) returns (ch: Option<byte>)
      requires Holds(init)
      modifies this, fd, buf
      ensures Holds(ch) && Text(ch) == SkipToken(old(Text(init)))
    {
      ch := init;
      while ch != Some(SPACE) && ch != Some(NL) && ch.Some?
        invariant Holds(ch) && SkipToken(Text(ch)) == SkipToken(old(Text(init)))
        decreases |Text(ch)|
      {
        ch := Next(ch);
      }
    }

    method PassField(init: Option<byte>) returns (ch: Option<byte>)
      requires Holds(init)
      modifies this, fd, buf
      ensures Holds(ch) && Text(ch) == SkipField(old(Text(init)))
    {
      ch := PassSpaces(init);
      ch := PassToken(ch);
      ch := PassSpaces(ch);
    }

    /** The file name loop: the rest of the line, stored up to the buffer size and trimmed. */
    method GetName(init: Option<byte>) returns (name: Name, ch: Option<byte>)
      requires Holds(init)
      modifies this, fd, buf
      ensures Holds(ch) && Text(ch) == AfterLine(old(Text(init)))
      ensures name == StoredName(Line(old(Text(init))))
    {
      ghost var seen: seq<byte>, all, here := [], Text(init), Text(init);
      name, ch := [], init;
      while ch != Some(NL) && ch.Some?
        invariant Holds(ch) && Text(ch) == here && AfterLine(here) == AfterLine(all)
        invariant seen + Line(here) == Line(all)
        invariant name == seen[..Min(|seen|, FNAME_MAX - 1)]
        decreases |here|
      {
        name := KeepByte(name, ch.value, seen);
        LineStep(seen, here);
        seen := seen + [ch.value];
        ch := Next(ch);
        here := here[1..];
      }
      assert seen == Line(all) by {
        assert Line(here) == [];
      }
      name := Trim(name);
    }

    /** The address range of one line. */
    method GetRange(first: Option<byte>) returns (r: Parsed<(usize, usize)>)
      requires Holds(first) && first.Some?
      modifies this, fd, buf
      ensures
        var range := ParseRange(old(Text(first)));
        if r.Good? then Valid() && range == Good((r.value.0, r.value.1, Rest())) else range == Bad(r.error)
    {
      var start, ch := GetHexFrom(first);
      if ch != Some(DASH) {
        return Bad(Malformed);
      }
      assert Text(ch)[1..] == Rest();
      var end;
      end, ch := GetHex();
      if ch != Some(SPACE) {
        return Bad(Malformed);
      }
      assert Text(ch)[1..] == Rest();
      return Good((start, end));
    }

    /** The columns of one line that are kept, without the path. */
    method GetHead(first: Option<byte>) returns (r: Parsed<Mapping>, ch: Option<byte>)
      requires Holds(first) && first.Some?
      modifies this, fd, buf
      ensures
        var head := ParseHead(old(Text(first)));
        if r.Good? then Holds(ch) && head == Good((r.value, Text(ch))) else head == Bad(r.error)
    {
      var range := GetRange(first);
      if range.Bad? {
        return Bad(range.error), None;
      }
      var perms := GetPerms();
      if perms.None? {
        return Bad(Malformed), None;
      }
      var offset;
      offset, ch := GetHex();
      if ch != Some(SPACE) {
        return Bad(Malformed), ch;
      }
      r := Good(Listed(range.value.0, range.value.1, perms.value, offset, []));
    }

    /** One line. */
    method GetLine(first: Option<byte>) returns (r: Parsed<Mapping>, ch: Option<byte>)
      requires Holds(first) && first.Some?
      modifies this, fd, buf
      ensures
        var line := ParseLine(old(Text(first)));
        if r.Good? then Holds(ch) && line == Good((r.value, Text(ch))) else line == Bad(r.error)
    {
      r, ch := GetHead(first);
      if r.Bad? {
        return;
      }
      ch := PassField(ch);
      ch := PassField(ch);
      var name: Name;
      name, ch := GetName(ch);
      r := Good(WithName(r.value, name));
    }
  }

  lemma FirstOf(s: seq<byte>, i: nat, j: nat, rest: seq<byte>)
    requires i < j <= |s|
    ensures s[i..j] + rest == [s[i]] + (s[i + 1..j] + rest)
  {
  }

  lemma HexStep(s: seq<byte>, hex: usize)
    requires s != [] && Nibble(s[0]).Some?
    ensures ScanHex(s, hex) == ScanHex(s[1..], (hex * 16 + Nibble(s[0]).value) % U64)
  {
  }

  lemma LineStep(seen: seq<byte>, s: seq<byte>)
    requires s != [] && s[0] != NL
    ensures (seen + [s[0]]) + Line(s[1..]) == seen + Line(s) && AfterLine(s[1..]) == AfterLine(s)
  {
  }

  lemma CutStep(s: seq<byte>, c: byte)
    ensures
      var kept := s[..Min(|s|, FNAME_MAX - 1)];
      (s + [c])[..Min(|s| + 1, FNAME_MAX - 1)] == if |kept| < FNAME_MAX - 1 then kept + [c] else kept
  {
  }

  /** The name with one more byte, if there is room. */
  method KeepByte(name: Name, c: byte, ghost seen: seq<byte>) returns (r: Name)
    requires name == seen[..Min(|seen|, FNAME_MAX - 1)]
    ensures r == (seen + [c])[..Min(|seen| + 1, FNAME_MAX - 1)]
  {
    CutStep(seen, c);
    r := if |name| < FNAME_MAX - 1 then name + [c] else name;
  }

  /** Drop trailing spaces. */
  method Trim(s: Name) returns (r: Name)
    ensures r == TrimEnd(s)
  {
    var len: nat := |s|;
    assert s[..len] == s;
    while len > 0 && s[len - 1] == SPACE
      invariant len <= |s| && TrimEnd(s[..len]) == TrimEnd(s)
    {
      assert s[..len][..len - 1] == s[..len - 1];
      len := len - 1;
    }
    return s[..len];
  }

  /** The result of opening the listing. */
  datatype Opened = Opened(fd: InFd) | NotOpened(errno: int)

  /** `parse_self_maps`: fill `out` from the front, and say how many mappings were read. */
  method ParseSelfMaps(src: Opened, out: array<Mapping>) returns (r: Parsed<nat>)
    modifies out, if src.Opened? then {src.fd} else {}
    ensures src.NotOpened? ==> r == Bad(Open(src.errno))
    ensures src.Opened? ==>
      match ParseMaps(old(src.fd.Unread()), out.Length)
      case Good(ms) => r == Good(|ms|) && |ms| <= out.Length && out[..|ms|] == ms && out[|ms|..] == old(out[|ms|..])
      case Bad(e) => r == Bad(e)
  {
    if src.NotOpened? {
      return Bad(Open(src.errno));
    }
    var io := new Io(src.fd);
    var ch := io.GetChar();
    ghost var all, done := ParseMaps(io.Text(ch), out.Length), [];
    var n := 0;
    ParseStarts(io.Text(ch), out.Length);
    while n < out.Length && ch.Some?
      invariant io.Holds(ch) && fresh(io) && fresh(io.buf) && io.fd == src.fd
      invariant n == |done| <= out.Length && Filled(out, done, old(out[..]))
      invariant Continues(all, out.Length, done, io.Text(ch))
      decreases |io.Text(ch)|
    {
      ghost var here := io.Text(ch);
      var line;
      line, ch := io.GetLine(ch);
      if line.Bad? {
        ParseFails(all, out.Length, done, here, line.error);
        return Bad(line.error);
      }
      Store(out, n, line.value, done, old(out[..]));
      n := n + 1;
      ghost var rest := io.Text(ch);
      if ch == Some(NL) {
        ch := io.GetChar();
      } else {
        AfterLineEnds(here);
        assert ch.None?;
      }
      ParseContinues(all, out.Length, done, here, line.value, rest);
      done := done + [line.value];
    }
    assert done + [] == done;
    return Good(n);
  }

  ghost predicate Filled(out: array<Mapping>, done: seq<Mapping>, before: seq<Mapping>)
    reads out
  {
    |done| <= out.Length == |before| && out[..|done|] == done && out[|done|..] == before[|done|..]
  }

  method Store(out: array<Mapping>, n: nat, m: Mapping, ghost done: seq<Mapping>, ghost before: seq<Mapping>)
    requires n == |done| < out.Length && Filled(out, done, before)
    modifies out
    ensures Filled(out, done + [m], before)
  {
    out[n] := m;
  }

  /** The whole parse is `all`, and amounts to `done` followed by parsing `here`. */
  ghost predicate Continues(all: Parsed<seq<Mapping>>, capacity: nat, done: seq<Mapping>, here: seq<byte>) {
    |done| <= capacity && all == Prefixed(done, ParseMaps(here, capacity - |done|))
  }

  lemma ParseStarts(text: seq<byte>, capacity: nat)
    ensures Continues(ParseMaps(text, capacity), capacity, [], text)
  {
    var all := ParseMaps(text, capacity);
    if all.Good? {
      assert [] + all.value == all.value;
    }
  }

  lemma ParseFails(all: Parsed<seq<Mapping>>, capacity: nat, done: seq<Mapping>, here: seq<byte>, e: MapsError)
    requires Continues(all, capacity, done, here) && |done| < capacity && here != []
    requires ParseLine(here) == Bad(e)
    ensures all == Bad(e)
  {
  }

  lemma PrefixedMore(all: Parsed<seq<Mapping>>, done: seq<Mapping>, m: Mapping, tail: Parsed<seq<Mapping>>)
    requires all == Prefixed(done, Prefixed([m], tail))
    ensures all == Prefixed(done + [m], tail)
  {
    if tail.Good? {
      assert done + ([m] + tail.value) == done + [m] + tail.value;
    }
  }

  lemma ParseContinues(all: Parsed<seq<Mapping>>, capacity: nat, done: seq<Mapping>, here: seq<byte>,
                       m: Mapping, rest: seq<byte>)
    requires Continues(all, capacity, done, here) && |done| < capacity && ParseLine(here) == Good((m, rest))
    ensures Continues(all, capacity, done + [m], DropFirst(rest))
  {
    var room := capacity - |done|;
    var tail := ParseMaps(DropFirst(rest), room - 1);
    assert all == Prefixed(done, Prefixed([m], tail)) by {
      ParseMapsStep(here, m, rest, room);
    }
    PrefixedMore(all, done, m, tail);
  }

  /** A parsed line stops at a newline or at the end of the text. */
  lemma {:induction false} AfterLineStops(s: seq<byte>)
    ensures AfterLine(s) == [] || AfterLine(s)[0] == NL
  {
    if s != [] && s[0] != NL {
      AfterLineStops(s[1..]);
    }
  }

  lemma AfterLineEnds(s: seq<byte>)
    requires ParseLine(s).Good?
    ensures ParseLine(s).value.1 == [] || ParseLine(s).value.1[0] == NL
  {
    AfterLineStops(SkipField(SkipField(ParseHead(s).value.1)));
  }
}
