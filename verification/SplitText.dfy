/** Splitting a long text into lines that fit: split_up_text and the loop around it.

    A line travels as ":nick!user@host COMMAND target :text" CR LF and may be 512 bytes long. */
module SplitText {
  import opened CStrings

  const UINT: int := 0x1_0000_0000

  // ---------------------------------------------------------------------
  // The room for text
  // ---------------------------------------------------------------------

  /** What split_up_text looks at in the session; `userHost` as in user@host, when it is known. */
  datatype Session = Session(nick: string, channel: string, userHost: Option<string>)

  /** The room for text as a mathematical integer. */
  function Room(s: Session, cmdLength: nat): int {
    512 - 3 - cmdLength - |s.nick| - |s.channel| - match s.userHost case Some(h) => |h| case None => 9 + 65
  }

  /** `max` is unsigned: a negative room becomes a huge one. */
  function Unsigned(n: int): (r: nat)
    ensures r < UINT && (0 <= n < UINT ==> r == n) && (-UINT <= n < 0 ==> r == n + UINT)
  {
    n % UINT
  }

  // ---------------------------------------------------------------------
  // Where a text is cut
  // ---------------------------------------------------------------------

  /** Walking over whole characters from i for as long as they end before max. */
  function Boundary(text: string, i: nat, max: nat): (k: nat)
    requires i <= max < |text|
    ensures i <= k <= max && (i < max ==> k < max) && k + Skip(text[k]) >= max
    decreases max - i
  {
    if i + Skip(text[i]) >= max then i else Boundary(text, i + Skip(text[i]), max)
  }

  /** g_utf8_strrchr (text, n, ' ') */
  function LastSpace(text: string, n: nat): (sp: Option<nat>)
    requires n <= |text|
    ensures sp.Some? ==> sp.value < n && text[sp.value] == ' ' && ' ' !in text[sp.value + 1..n]
    ensures sp.None? ==> ' ' !in text[..n]
  {
    if n == 0 then None
    else if text[n - 1] == ' ' then Some(n - 1)
    else
      var sp := LastSpace(text, n - 1);
      assert text[..n] == text[..n - 1] + [text[n - 1]];
      assert sp.Some? ==> text[sp.value + 1..n] == text[sp.value + 1..n - 1] + [text[n - 1]];
      sp
  }

  /** g_utf8_pointer_to_offset: the number of characters from i up to the byte p. */
  function CharOffset(text: string, i: nat, p: nat): (n: nat)
    requires p <= |text|
    ensures i <= p ==> n <= p - i && (i < p ==> n > 0)
    decreases p - i
  {
    if i >= p then 0 else 1 + CharOffset(text, i + Skip(text[i]), p)
  }

  /** How many bytes of the text go into the next line, or None when all of it fits. */
  function Cut(text: string, max: nat): (k: Option<nat>)
    ensures k.None? <==> |text| <= max
    ensures k.Some? ==> k.value <= max && (max > 0 ==> k.value < max)
  {
    if |text| <= max then None
    else
      var i := Boundary(text, 0, max);
      match LastSpace(text, i)
      case None => Some(i)
      case Some(sp) =>
        var offset := CharOffset(text, 0, sp);
        if i - offset < 20 then Some(offset + 1) else Some(i)
  }

  /** Nothing is cut off exactly when the first character alone is too long for the room. */
  lemma CutNothingIff(text: string, max: nat)
    requires |text| > max
    ensures Cut(text, max) == Some(0) <==> Skip(text[0]) >= max
  {
    assert Boundary(text, 0, max) == 0 <==> Skip(text[0]) >= max;
  }

  // ---------------------------------------------------------------------
  // All the lines
  // ---------------------------------------------------------------------

  /** The lines a text is sent in; None when the loop never gets on. */
  function Pieces(text: string, max: nat): Option<seq<string>>
    decreases |text|
  {
    match Cut(text, max)
    case None => Some([text])
    case Some(k) =>
      if k == 0 then None
      else
        match Pieces(text[k..], max)
        case None => None
        case Some(rest) => Some([text[..k]] + rest)
  }

  function Concat(ps: seq<string>): string {
    if ps == [] then "" else ps[0] + Concat(ps[1..])
  }

  /** Whatever the room, the lines together are the text, byte for byte. */
  lemma {:induction false} PiecesConcat(text: string, max: nat)
    ensures Pieces(text, max).Some? ==> Concat(Pieces(text, max).value) == text
    decreases |text|
  {
    var k := Cut(text, max);
    if k.None? {
      assert [text][1..] == [];
    } else if k.value > 0 {
      PiecesConcat(text[k.value..], max);
      var rest := Pieces(text[k.value..], max);
      if rest.Some? {
        assert ([text[..k.value]] + rest.value)[1..] == rest.value;
      }
    }
  }

  /** Every line fits; all but the last are cut short by one and are not empty. */
  ghost predicate Fit(ps: seq<string>, max: nat) {
    && ps != [] && |ps[|ps| - 1]| <= max
    && forall i :: 0 <= i < |ps| - 1 ==> 0 < |ps[i]| < max
  }

  lemma {:induction false} PiecesFit(text: string, max: nat)
    ensures Pieces(text, max).Some? ==> Fit(Pieces(text, max).value, max)
    decreases |text|
  {
    var k := Cut(text, max);
    if k.Some? && k.value > 0 {
      PiecesFit(text[k.value..], max);
    }
  }

  /** Room for one byte more than the longest character is enough. */
  lemma {:induction false} PiecesEnd(text: string, max: nat, longest: nat)
    requires longest < max && forall j :: 0 <= j < |text| ==> Skip(text[j]) <= longest
    ensures Pieces(text, max).Some?
    decreases |text|
  {
    var k := Cut(text, max);
    if k.Some? {
      CutNothingIff(text, max);
      PiecesEnd(text[k.value..], max, longest);
    }
  }

  /** The loop ends for every text exactly when there is room for seven bytes. */
  lemma RoomEnoughIff(max: nat)
    ensures (forall text :: Pieces(text, max).Some?) <==> max >= 7
  {
    hide Pieces;
    if max >= 7 {
      forall text ensures Pieces(text, max).Some? {
        PiecesEnd(text, max, 6);
      }
    } else {
      var text := ['\U{FC}', 'a', 'a', 'a', 'a', 'a', 'a'];
      CutNothingIff(text, max);
      StuckAtOnce(text, max);
    }
  }

  /** UTF-8 of RFC 3629 as far as lengths go: every character has its lead byte and as many
      continuation bytes as that says. */
  ghost predicate Utf8(text: string, i: nat)
    decreases |text| - i
  {
    if i >= |text| then i == |text|
    else
      && WholeAt(text, i) && (text[i] as int < 0x80 || 0xC2 <= text[i] as int < 0xF5)
      && (forall j :: i < j < i + Skip(text[i]) ==> 0x80 <= text[j] as int < 0xC0)
      && Utf8(text, i + Skip(text[i]))
  }

  lemma {:induction false} Utf8Short(text: string, i: nat)
    requires i <= |text| && Utf8(text, i)
    ensures forall j :: i <= j < |text| ==> Skip(text[j]) <= 4
    decreases |text| - i
  {
    if i < |text| {
      Utf8Short(text, i + Skip(text[i]));
    }
  }

  /** For UTF-8 text, exactly when there is room for five. */
  lemma Utf8RoomEnoughIff(max: nat)
    ensures (forall text :: Utf8(text, 0) ==> Pieces(text, max).Some?) <==> max >= 5
  {
    hide Pieces;
    if max >= 5 {
      forall text | Utf8(text, 0) ensures Pieces(text, max).Some? {
        Utf8Short(text, 0);
        PiecesEnd(text, max, 4);
      }
    } else {
      var text := ['\U{F0}', '\U{9F}', '\U{98}', '\U{80}', '!'];
      assert Utf8(text, 5) && Utf8(text, 4);
      CutNothingIff(text, max);
      StuckAtOnce(text, max);
    }
  }

  lemma StuckAtOnce(text: string, max: nat)
    requires Cut(text, max) == Some(0)
    ensures Pieces(text, max).None?
  {
  }

  /** In a session no text makes the loop endless exactly when the room is negative, and wraps around,
      or is seven bytes at least. */
  lemma SayEndsIff(s: Session, cmdLength: nat)
    requires Room(s, cmdLength) >= 7 - UINT
    ensures (forall text :: Pieces(text, Unsigned(Room(s, cmdLength))).Some?)
            <==> Room(s, cmdLength) < 0 || Room(s, cmdLength) >= 7
  {
    hide Pieces;
    RoomEnoughIff(Unsigned(Room(s, cmdLength)));
  }

  /** The loop comes to this offset. */
  ghost predicate Reached(text: string, max: nat, off: nat)
    decreases |text|
  {
    off == 0 ||
    match Cut(text, max)
    case None => false
    case Some(k) => 0 < k <= off && Reached(text[k..], max, off - k)
  }

  ghost predicate StuckAt(text: string, max: nat, off: nat) {
    off < |text| && |text| - off > max && Skip(text[off]) >= max && Reached(text, max, off)
  }

  /** With less room it ends exactly when it never comes to a rest that is too long and starts with a
      character that alone fills the room. */
  lemma {:induction false} StuckIff(text: string, max: nat)
    ensures Pieces(text, max).None? <==> exists off :: StuckAt(text, max, off)
    decreases |text|
  {
    var k := Cut(text, max);
    PiecesUnfold(text, max);
    hide Cut, Pieces, StuckAt;
    if k.None? {
      forall off ensures !StuckAt(text, max, off) {
        StuckStep(text, max, off);
      }
    } else if k.value == 0 {
      StuckStep(text, max, 0);
      assert StuckAt(text, max, 0);
    } else {
      var rest := text[k.value..];
      StuckIff(rest, max);
      if Pieces(rest, max).None? {
        var off :| StuckAt(rest, max, off);
        StuckStep(text, max, off + k.value);
        assert StuckAt(text, max, off + k.value);
      } else {
        forall off ensures !StuckAt(text, max, off) {
          StuckStep(text, max, off);
        }
      }
    }
  }

  lemma PiecesUnfold(text: string, max: nat)
    ensures match Cut(text, max)
            case None => Pieces(text, max) == Some([text])
            case Some(k) =>
              if k == 0 then Pieces(text, max) == None else (Pieces(text, max).None? <==> Pieces(text[k..], max).None?)
  {
    hide Cut;
  }

  /** Being stuck at an offset, seen from the first cut. */
  lemma StuckStep(text: string, max: nat, off: nat)
    ensures match Cut(text, max)
            case None => !StuckAt(text, max, off)
            case Some(k) =>
              if k == 0 then StuckAt(text, max, 0)
              else (StuckAt(text, max, off) <==> off >= k && StuckAt(text[k..], max, off - k))
  {
    var k := Cut(text, max);
    if k.Some? {
      CutNothingIff(text, max);
    }
    hide Cut;
    if k.Some? && 0 < k.value <= off < |text| {
      assert text[k.value..][off - k.value] == text[off];
    }
  }

  /** One four-byte character and no room to speak of. */
  lemma StuckExample()
    ensures Pieces(['\U{F0}', '\U{9F}', '\U{98}', '\U{80}', '!'], 4).None?
  {
    CutNothingIff(['\U{F0}', '\U{9F}', '\U{98}', '\U{80}', '!'], 4);
  }

  /** A negative room wraps around, so the text is sent whole. */
  lemma NegativeRoomUnsplit(text: string, room: int)
    requires -UINT <= room < 0 && |text| <= UINT + room
    ensures Pieces(text, Unsigned(room)) == Some([text])
  {
  }

  // ---------------------------------------------------------------------
  // Where the cuts fall
  // ---------------------------------------------------------------------

  /** How many bytes before p are not continuation bytes. */
  function Leads(text: string, i: nat, p: nat): nat
    requires i <= p <= |text|
    decreases p - i
  {
    if i == p then 0 else (if 0x80 <= text[i] as int < 0xC0 then 0 else 1) + Leads(text, i + 1, p)
  }

  lemma {:induction false} LeadsSkip(text: string, i: nat, k: nat, p: nat)
    requires i <= k <= p <= |text| && forall j :: i <= j < k ==> 0x80 <= text[j] as int < 0xC0
    ensures Leads(text, i, p) == Leads(text, k, p)
    decreases k - i
  {
    if i < k {
      LeadsSkip(text, i + 1, k, p);
    }
  }

  /** The offset that the place of the space is turned into is the number of characters before it. */
  lemma {:induction false} OffsetCounts(text: string, i: nat, p: nat)
    requires Utf8(text, i) && i <= p < |text| && !(0x80 <= text[p] as int < 0xC0)
    ensures CharOffset(text, i, p) == Leads(text, i, p)
    decreases p - i
  {
    if i < p {
      var k := i + Skip(text[i]);
      assert k <= p;
      LeadsSkip(text, i + 1, k, p);
      OffsetCounts(text, k, p);
    }
  }

  /** In ASCII text the cut comes after the last space if that is among the last 19 bytes, and one
      byte before the room ends otherwise. */
  lemma AsciiCut(text: string, max: nat)
    requires Ascii(text) && 1 <= max < |text|
    ensures var sp := LastSpace(text, max - 1);
            Cut(text, max) == Some(if sp.Some? && max - 1 - sp.value < 20 then sp.value + 1 else max - 1)
  {
    AsciiBoundary(text, 0, max);
    var sp := LastSpace(text, max - 1);
    if sp.Some? {
      SingleBytes(text, 0, sp.value);
    }
  }

  lemma {:induction false} AsciiBoundary(text: string, i: nat, max: nat)
    requires Ascii(text) && i < max < |text|
    ensures Boundary(text, i, max) == max - 1
    decreases max - i
  {
    if i + 1 < max {
      AsciiBoundary(text, i + 1, max);
    }
  }

  /** Where the characters before a place have one byte each the offset is the place. */
  lemma {:induction false} SingleBytes(text: string, i: nat, p: nat)
    requires i <= p <= |text|
    ensures CharOffset(text, i, p) == p - i <==> forall j :: i <= j < p - 1 ==> Skip(text[j]) == 1
    decreases p - i
  {
    if i < p {
      var n := Skip(text[i]);
      if i + n <= p {
        SingleBytes(text, i + n, p);
      }
    }
  }

  /** The cut is meant to come right after a space; it does exactly when all characters before the
      space have one byte, because the space is counted in characters. */
  lemma CutAfterSpaceIff(text: string, max: nat)
    requires |text| > max
    requires LastSpace(text, Boundary(text, 0, max)).Some?
    requires var sp := LastSpace(text, Boundary(text, 0, max)).value; Boundary(text, 0, max) - CharOffset(text, 0, sp) < 20
    ensures var sp := LastSpace(text, Boundary(text, 0, max)).value;
            Cut(text, max) == Some(sp + 1) <==> forall j :: 0 <= j < sp - 1 ==> Skip(text[j]) == 1
  {
    SingleBytes(text, 0, LastSpace(text, Boundary(text, 0, max)).value);
  }

  /** Without a space a cut never falls inside a character. */
  lemma NoSpaceWhole(text: string, max: nat)
    requires max < |text| && ' ' !in text && WholeFrom(text, 0)
    ensures WholeFrom(text[..Cut(text, max).value], 0) && WholeFrom(text[Cut(text, max).value..], 0)
  {
    var k := Boundary(text, 0, max);
    assert LastSpace(text, k).None?;
    BoundaryWhole(text, 0, max);
    WholeShift(text, k, text[k..], 0);
  }

  lemma {:induction false} BoundaryWhole(text: string, i: nat, max: nat)
    requires i <= max < |text| && WholeFrom(text, i)
    ensures var k := Boundary(text, i, max);
            WholeFrom(text[..k], i) && WholeFrom(text, k)
    decreases max - i
  {
    var k := Boundary(text, i, max);
    if i < k {
      BoundaryWhole(text, i + Skip(text[i]), max);
      assert text[..k][i] == text[i];
    }
  }

  /** With one, it can: after two two-byte characters the space is the third character, and the text
      is cut after the third byte. */
  lemma SpaceCutsCharacter()
    ensures var text := ['\U{C3}', '\U{A9}', '\U{C3}', '\U{A9}', ' ', 'a', 'b', 'c'];
            WholeFrom(text, 0) && Cut(text, 7) == Some(3) && !WholeFrom(text[..3], 0)
  {
    var text := ['\U{C3}', '\U{A9}', '\U{C3}', '\U{A9}', ' ', 'a', 'b', 'c'];
    assert WholeFrom(text, 4) && WholeFrom(text, 2);
    assert Boundary(text, 0, 7) == Boundary(text, 4, 7) == 6;
    assert LastSpace(text, 6) == LastSpace(text, 5) == Some(4);
    assert CharOffset(text, 2, 4) == 1;
    assert text[..3][0] == '\U{C3}' && text[..3][2] == '\U{C3}';
    assert !WholeFrom(text[..3], 2);
  }

  // ---------------------------------------------------------------------
  // The lines on the wire
  // ---------------------------------------------------------------------

  datatype Command = Message | Action | Notice

  /** The three values that the callers pass. */
  function CmdLength(c: Command): nat {
    match c
    case Message => 13
    case Action => 22
    case Notice => 12
  }

  /** A command as the server passes it on. */
  function Relayed(c: Command, nick: string, userHost: string, target: string, text: string): string {
    ":" + nick + "!" + userHost +
    match c
    case Message => " PRIVMSG " + target + " :" + text + "\r\n"
    case Action => " PRIVMSG " + target + " :" + "\U{01}ACTION " + text + "\U{01}" + "\r\n"
    case Notice => " NOTICE " + target + " :" + text + "\r\n"
  }

  /** The real user@host is the known one, or is not longer than was allowed for. */
  predicate HostAllowed(s: Session, userHost: string) {
    match s.userHost
    case Some(h) => userHost == h
    case None => |userHost| <= 74
  }

  ghost predicate LinesFit(c: Command, s: Session, userHost: string, target: string, ps: seq<string>) {
    forall i :: 0 <= i < |ps| ==> |Relayed(c, s.nick, userHost, target, ps[i])| <= 512
  }

  lemma RelayedLength(c: Command, s: Session, userHost: string, target: string, text: string)
    ensures |Relayed(c, s.nick, userHost, target, text)| == 2 + |s.nick| + |userHost| + |target| + CmdLength(c) + |text|
  {
  }

  lemma FitAt(ps: seq<string>, max: nat, i: nat)
    requires Fit(ps, max) && i < |ps|
    ensures |ps[i]| <= max
  {
  }

  lemma LineFits(c: Command, s: Session, userHost: string, text: string)
    requires HostAllowed(s, userHost) && |text| <= Room(s, CmdLength(c))
    ensures |Relayed(c, s.nick, userHost, s.channel, text)| <= 512
  {
    RelayedLength(c, s, userHost, s.channel, text);
    hide Relayed;
  }

  /** The room is all there is but one byte, the '@' that is counted twice: a line to the channel is as
      much longer than 511 bytes as its text is longer than the room.  For an unknown user@host 74 bytes
      are allowed. */
  lemma RoomExact(c: Command, s: Session, userHost: string, text: string)
    requires match s.userHost case Some(h) => userHost == h case None => |userHost| == 74
    ensures |Relayed(c, s.nick, userHost, s.channel, text)| == 511 + |text| - Room(s, CmdLength(c))
  {
    RelayedLength(c, s, userHost, s.channel, text);
    hide Relayed;
  }

  /** Whatever is said to the channel of the session fits, as soon as the room is not negative. */
  lemma ChannelLinesFit(c: Command, s: Session, userHost: string, text: string)
    requires HostAllowed(s, userHost) && Room(s, CmdLength(c)) >= 0
    requires Pieces(text, Unsigned(Room(s, CmdLength(c)))).Some?
    ensures LinesFit(c, s, userHost, s.channel, Pieces(text, Unsigned(Room(s, CmdLength(c)))).value)
  {
    var room := Room(s, CmdLength(c));
    assert Unsigned(room) == room;
    hide Pieces, Room, Unsigned, Relayed, Fit, HostAllowed, CmdLength;
    PiecesFit(text, room);
    var ps := Pieces(text, room).value;
    forall i | 0 <= i < |ps| ensures |Relayed(c, s.nick, userHost, s.channel, ps[i])| <= 512 {
      FitAt(ps, room, i);
      LineFits(c, s, userHost, ps[i]);
    }
  }

  /** With a negative room nothing fits, except an empty text when one byte was lacking: the '@' is
      counted twice. */
  lemma NegativeRoomFitsIff(c: Command, s: Session, text: string)
    requires s.userHost.Some? && -UINT <= Room(s, CmdLength(c)) < 0 && |text| <= UINT + Room(s, CmdLength(c))
    ensures Pieces(text, Unsigned(Room(s, CmdLength(c)))) == Some([text])
    ensures LinesFit(c, s, s.userHost.value, s.channel, [text]) <==> Room(s, CmdLength(c)) == -1 && text == ""
  {
    var room, host := Room(s, CmdLength(c)), s.userHost.value;
    NegativeRoomUnsplit(text, room);
    RelayedLength(c, s, host, s.channel, text);
    assert |Relayed(c, s.nick, host, s.channel, text)| == 511 - room + |text|;
    hide Relayed, Pieces, Unsigned, Room;
    OneLineFits(c, s, host, s.channel, text);
    hide LinesFit;
  }

  lemma OneLineFits(c: Command, s: Session, userHost: string, target: string, text: string)
    ensures LinesFit(c, s, userHost, target, [text]) <==> |Relayed(c, s.nick, userHost, target, text)| <= 512
  {
    hide Relayed;
    assert [text][0] == text;
  }

  ghost predicate SentFits(c: Command, s: Session, target: string, text: string)
    requires s.userHost.Some?
  {
    var ps := Pieces(text, Unsigned(Room(s, CmdLength(c))));
    ps.Some? && LinesFit(c, s, s.userHost.value, target, ps.value)
  }

  lemma OtherLineFits(c: Command, s: Session, target: string, text: string)
    requires s.userHost.Some? && |target| <= |s.channel| + 1 && |text| <= Room(s, CmdLength(c))
    ensures |Relayed(c, s.nick, s.userHost.value, target, text)| <= 512
  {
    RelayedLength(c, s, s.userHost.value, target, text);
    hide Relayed;
  }

  /** cmd_msg and cmd_notice write to any nick but take the room from the channel that is open: all
      texts fit exactly when the nick is at most one byte longer than the channel. */
  lemma OtherTargetFitsIff(c: Command, s: Session, target: string)
    requires s.userHost.Some? && Room(s, CmdLength(c)) >= 7
    ensures (forall text :: SentFits(c, s, target, text)) <==> |target| <= |s.channel| + 1
  {
    var room, host := Room(s, CmdLength(c)), s.userHost.value;
    hide Relayed;
    if |target| <= |s.channel| + 1 {
      forall text ensures SentFits(c, s, target, text) {
        PiecesEnd(text, room, 6);
        PiecesFit(text, room);
        var ps := Pieces(text, room).value;
        hide Pieces, Fit, Room, Unsigned, CmdLength;
        forall i | 0 <= i < |ps| ensures |Relayed(c, s.nick, host, target, ps[i])| <= 512 {
          FitAt(ps, room, i);
          OtherLineFits(c, s, target, ps[i]);
        }
      }
    } else {
      var text: string := seq(room, i => 'a');
      assert Pieces(text, room).value == [text];
      RelayedLength(c, s, host, target, text);
      assert |Relayed(c, s.nick, host, target, [text][0])| > 512;
      assert !SentFits(c, s, target, text);
    }
  }

  // ---------------------------------------------------------------------
  // The code
  // ---------------------------------------------------------------------

  /** split_up_text */
  method SplitUpText(s: Session, text: string, cmdLength: nat) returns (split: Option<string>)
    ensures match Cut(text, Unsigned(Room(s, cmdLength)))
            case None => split == None
            case Some(k) => split == Some(text[..k])
  {
    var m := 512;
    m := m - 3;
    m := m - cmdLength;
    m := m - |s.nick|;
    m := m - |s.channel|;
    match s.userHost {
      case Some(h) =>
        m := m - |h|;
      case None =>
        m := m - 9;
        m := m - 65;
    }
    var max := Unsigned(m);
    if |text| <= max {
      return None;
    }
    var i := 0;
    while i + Skip(text[i]) < max
      invariant i <= max < |text|
      invariant Boundary(text, i, max) == Boundary(text, 0, max)
      decreases max - i
    {
      i := i + Skip(text[i]);
    }
    max := i;
    var space := LastSpace(text, max);
    if space.Some? {
      var spaceOffset := CharOffset(text, 0, space.value);
      if max != spaceOffset && max - spaceOffset < 20 {
        max := spaceOffset + 1;
      }
    }
    return Some(text[..max]);
  }

  /** The loop of handle_say, cmd_me, cmd_msg and cmd_notice.  It ends, or it comes to an empty piece
      and would send empty lines for ever. */
  method Say(s: Session, text: string, cmdLength: nat) returns (sent: seq<string>, stuck: bool)
    ensures stuck <==> Pieces(text, Unsigned(Room(s, cmdLength))).None?
    ensures !stuck ==> Pieces(text, Unsigned(Room(s, cmdLength))) == Some(sent)
  {
    ghost var max := Unsigned(Room(s, cmdLength));
    var offset := 0;
    sent := [];
    SendingStart(text, max);
    var split := SplitUpText(s, text[offset..], cmdLength);
    hide Pieces, Sending, Room, Unsigned;
    while split.Some?
      invariant offset <= |text|
      invariant match Cut(text[offset..], max)
                case None => split == None
                case Some(k) => split == Some(text[offset..][..k])
      invariant Sending(text, max, sent, offset)
      decreases |text| - offset
    {
      SendingStep(text, max, sent, offset);
      if split.value == "" {
        return sent, true;
      }
      sent := sent + [split.value];
      offset := offset + |split.value|;
      split := SplitUpText(s, text[offset..], cmdLength);
    }
    SendingStep(text, max, sent, offset);
    return sent + [text[offset..]], false;
  }

  /** The pieces of the whole text are those sent and those of what is left. */
  ghost predicate Sending(text: string, max: nat, sent: seq<string>, offset: nat) {
    && offset <= |text|
    && match Pieces(text[offset..], max)
       case None => Pieces(text, max) == None
       case Some(rest) => Pieces(text, max) == Some(sent + rest)
  }

  lemma SendingStart(text: string, max: nat)
    ensures Sending(text, max, [], 0)
  {
    assert text[0..] == text;
    hide Pieces;
    if Pieces(text, max).Some? {
      assert [] + Pieces(text, max).value == Pieces(text, max).value;
    }
  }

  lemma SendingStep(text: string, max: nat, sent: seq<string>, offset: nat)
    requires Sending(text, max, sent, offset)
    ensures match Cut(text[offset..], max)
            case None => Pieces(text, max) == Some(sent + [text[offset..]])
            case Some(k) =>
              if k == 0 then Pieces(text, max) == None
              else Sending(text, max, sent + [text[offset..][..k]], offset + k)
  {
    hide Cut;
    var rest := text[offset..];
    var k := Cut(rest, max);
    if k.Some? && k.value > 0 {
      assert rest[k.value..] == text[offset + k.value..];
      var first, more := rest[..k.value], Pieces(rest[k.value..], max);
      assert Pieces(rest, max) == if more.Some? then Some([first] + more.value) else None;
      hide Pieces;
      if more.Some? {
        assert sent + ([first] + more.value) == (sent + [first]) + more.value;
      }
    }
  }
}
