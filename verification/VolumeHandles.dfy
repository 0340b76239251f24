/**
 Volume handles of file-storage volumes: printed at creation, parsed again on every later call.
 The address parser of the Go library is a parameter.
 */
module VolumeHandles {

  /** What net.ParseIP makes of a string: no address, one with a four-byte form, or another. */
  datatype Kind = NoAddress | FourByte | SixteenByte

  /** The library's parser accepts no brackets around an address and rejects the empty string. */
  ghost predicate IsParser(parse: string -> Kind) {
    forall s | parse(s) != NoAddress :: s != "" && '[' !in s && ']' !in s
  }

  // ---------- Searching ----------

  /** strings.Index for one character: its first position, or -1. */
  function Index(s: string, c: char): (i: int)
    ensures -1 <= i < |s|
  {
    if s == "" then -1
    else if s[0] == c then 0
    else var i := Index(s[1..], c); if i == -1 then -1 else i + 1
  }

  lemma {:induction false} IndexMeans(s: string, c: char)
    ensures var i := Index(s, c); if i == -1 then c !in s else s[i] == c && c !in s[..i]
  {
    if s != "" && s[0] != c {
      IndexMeans(s[1..], c);
      var i := Index(s[1..], c);
      assert s == [s[0]] + s[1..];
      assert i >= 0 ==> s[..i + 1] == [s[0]] + s[1..][..i];
    }
  }

  /** strings.LastIndex for one character. */
  function LastIndex(s: string, c: char): (i: int)
    ensures -1 <= i < |s|
  {
    if s == "" then -1
    else if s[|s| - 1] == c then |s| - 1
    else LastIndex(s[..|s| - 1], c)
  }

  lemma {:induction false} LastIndexMeans(s: string, c: char)
    ensures var i := LastIndex(s, c); if i == -1 then c !in s else s[i] == c && c !in s[i + 1..]
  {
    if s != "" && s[|s| - 1] != c {
      var t := s[..|s| - 1];
      LastIndexMeans(t, c);
      var i := LastIndex(t, c);
      assert s == t + [s[|s| - 1]];
      assert i >= 0 ==> s[i + 1..] == t[i + 1..] + [s[|s| - 1]];
    }
  }

  lemma {:induction false} IndexIs(a: string, c: char, b: string)
    requires c !in a
    ensures Index(a + [c] + b, c) == |a|
  {
    if a != "" {
      assert (a + [c] + b)[1..] == a[1..] + [c] + b;
      IndexIs(a[1..], c, b);
    }
  }

  lemma {:induction false} LastIndexIs(a: string, c: char, b: string)
    requires c !in b
    ensures LastIndex(a + [c] + b, c) == |a|
  {
    if b != "" {
      var t := b[..|b| - 1];
      assert (a + [c] + b)[..|a| + |b|] == a + [c] + t;
      LastIndexIs(a, c, t);
    }
  }

  // ---------- Brackets ----------

  function TrimLeft(s: string): string {
    if s != "" && (s[0] == '[' || s[0] == ']') then TrimLeft(s[1..]) else s
  }

  function TrimRight(s: string): string {
    if s != "" && (s[|s| - 1] == '[' || s[|s| - 1] == ']') then TrimRight(s[..|s| - 1]) else s
  }

  /** strings.Trim of brackets. */
  function TrimBrackets(s: string): string {
    TrimRight(TrimLeft(s))
  }

  lemma TrimWrapped(s: string)
    requires s != "" && '[' !in s && ']' !in s
    ensures TrimBrackets(s) == s && TrimBrackets("[" + s + "]") == s
  {
    assert s[0] in s && s[|s| - 1] in s;
    var w := "[" + s + "]";
    assert w[1..] == s + "]" && (s + "]")[0] == s[0];
    assert TrimLeft(w) == TrimLeft(w[1..]) == s + "]";
    assert (s + "]")[..|s|] == s;
  }

  function FormatValidIp(parse: string -> Kind, ip: string): string {
    match parse(ip)
    case FourByte => ip
    case SixteenByte => "[" + TrimBrackets(ip) + "]"
    case NoAddress => ip
  }

  /** An address with no four-byte form gets brackets, whatever is not an address or has one does not. */
  lemma FormatMeans(parse: string -> Kind, ip: string)
    requires IsParser(parse)
    ensures FormatValidIp(parse, ip) == if parse(ip) == SixteenByte then "[" + ip + "]" else ip
  {
    if parse(ip) == SixteenByte {
      TrimWrapped(ip);
    }
  }

  /** Formatting brackets an address once: again changes nothing, and trimming takes it back. */
  lemma FormatIsStable(parse: string -> Kind, ip: string)
    requires IsParser(parse)
    ensures FormatValidIp(parse, FormatValidIp(parse, ip)) == FormatValidIp(parse, ip)
    ensures parse(ip) != NoAddress ==> TrimBrackets(FormatValidIp(parse, ip)) == ip
  {
    if parse(ip) != NoAddress {
      TrimWrapped(ip);
      assert '[' in "[" + ip + "]";
    }
  }

  // ---------- File-storage handles ----------

  /** FSSVolumeHandler: all three parts, or all empty. */
  datatype Handle = Handle(filesystem: string, address: string, exportPath: string)

  function Print(parse: string -> Kind, filesystem: string, ip: string, path: string): string {
    Joined(Handle(filesystem, FormatValidIp(parse, ip), path))
  }

  function ValidateFssId(parse: string -> Kind, dns: string -> bool, id: string): Handle {
    var first, last := Index(id, ':'), LastIndex(id, ':');
    if first > 0 && last < |id| - 1 && first < last then
      var address := id[first + 1..last];
      if parse(TrimBrackets(address)) != NoAddress || dns(address) then Handle(id[..first], address, id[last + 1..])
      else Handle("", "", "")
    else Handle("", "", "")
  }

  /** The parts of a handle: the outer two are not empty and hold no colon, the middle one is an
      address, with or without brackets, or a DNS name. */
  predicate WellFormed(parse: string -> Kind, dns: string -> bool, h: Handle) {
    && h.filesystem != "" && ':' !in h.filesystem && h.exportPath != "" && ':' !in h.exportPath
    && (parse(TrimBrackets(h.address)) != NoAddress || dns(h.address))
  }

  function Joined(h: Handle): string {
    h.filesystem + ":" + h.address + ":" + h.exportPath
  }

  lemma Cut(f: string, a: string, e: string)
    ensures var id := f + ":" + a + ":" + e;
            id[..|f|] == f && id[|f| + 1..|f| + 1 + |a|] == a && id[|f| + 2 + |a|..] == e
  {
    var id := f + ":" + a + ":" + e;
    assert id[|f| + 1..|f| + 1 + |a|] == a;
  }

  lemma FirstColon(f: string, a: string, e: string)
    requires ':' !in f
    ensures Index(f + ":" + a + ":" + e, ':') == |f|
  {
    IndexIs(f, ':', a + ":" + e);
    assert f + ":" + a + ":" + e == f + [':'] + (a + ":" + e);
  }

  /** A handle is the file system, the address, bracketed if it has no four-byte form, and the path. */
  lemma PrintMeans(parse: string -> Kind, filesystem: string, ip: string, path: string)
    requires IsParser(parse)
    ensures var address := if parse(ip) == SixteenByte then "[" + ip + "]" else ip;
            Print(parse, filesystem, ip, path) == filesystem + ":" + address + ":" + path
  {
    FormatMeans(parse, ip);
  }

  /** Parsing inverts joining. */
  lemma ParseJoined(parse: string -> Kind, dns: string -> bool, h: Handle)
    requires WellFormed(parse, dns, h)
    ensures ValidateFssId(parse, dns, Joined(h)) == h
  {
    FirstColon(h.filesystem, h.address, h.exportPath);
    LastIndexIs(h.filesystem + ":" + h.address, ':', h.exportPath);
    Cut(h.filesystem, h.address, h.exportPath);
  }

  /** A parsed handle prints as the string it came from. */
  lemma JoinParsed(parse: string -> Kind, dns: string -> bool, id: string)
    requires ValidateFssId(parse, dns, id) != Handle("", "", "")
    ensures WellFormed(parse, dns, ValidateFssId(parse, dns, id)) && Joined(ValidateFssId(parse, dns, id)) == id
  {
    var first, last := Index(id, ':'), LastIndex(id, ':');
    assert ':' !in id[..first] && id[first] == ':' by {
      IndexMeans(id, ':');
    }
    assert ':' !in id[last + 1..] && id[last] == ':' by {
      LastIndexMeans(id, ':');
    }
    assert id == id[..first] + ":" + id[first + 1..last] + ":" + id[last + 1..];
  }

  /** A string is rejected exactly when it is no well-formed handle. */
  lemma RejectedIff(parse: string -> Kind, dns: string -> bool, id: string)
    ensures ValidateFssId(parse, dns, id) == Handle("", "", "") <==>
            forall h | WellFormed(parse, dns, h) :: Joined(h) != id
  {
    forall h | WellFormed(parse, dns, h) && Joined(h) == id
        ensures ValidateFssId(parse, dns, id) != Handle("", "", "") {
      ParseJoined(parse, dns, h);
    }
    if ValidateFssId(parse, dns, id) != Handle("", "", "") {
      JoinParsed(parse, dns, id);
    }
  }

  /** The printed handle of a provisioned volume gives back its parts exactly when the file system
      and the export path are not empty and hold no colon. */
  lemma PrintParsesBackIff(parse: string -> Kind, dns: string -> bool, filesystem: string, ip: string, path: string)
    requires IsParser(parse) && parse(ip) != NoAddress
    ensures ValidateFssId(parse, dns, Print(parse, filesystem, ip, path)) ==
            Handle(filesystem, FormatValidIp(parse, ip), path) <==>
            filesystem != "" && ':' !in filesystem && path != "" && ':' !in path
  {
    var h := Handle(filesystem, FormatValidIp(parse, ip), path);
    FormatIsStable(parse, ip);
    assert h.address != "";
    if filesystem != "" && ':' !in filesystem && path != "" && ':' !in path {
      ParseJoined(parse, dns, h);
    } else if ValidateFssId(parse, dns, Joined(h)) == h {
      JoinParsed(parse, dns, Joined(h));
    }
  }
}
