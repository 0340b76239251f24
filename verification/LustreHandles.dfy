/**
 Volume handles of Lustre volumes. A provisioned volume's handle is its OCID followed by the mount
 handle; older volumes carry the mount handle alone. Mount handles are one or more management server
 NIDs, an address and a network label each, followed by the path of the file system.
 */
module LustreHandles {
  import opened Common
  import opened VolumeHandles

  // ---------- Splitting ----------

  /** strings.Split at one character. */
  function Split(s: string, c: char): seq<string>
    decreases |s|
  {
    var i := Index(s, c);
    if i == -1 then [s] else [s[..i]] + Split(s[i + 1..], c)
  }

  function Join(parts: seq<string>, c: char): string
    requires |parts| > 0
  {
    if |parts| == 1 then parts[0] else parts[0] + [c] + Join(parts[1..], c)
  }

  predicate Without(parts: seq<string>, c: char) {
    forall i | 0 <= i < |parts| :: c !in parts[i]
  }

  lemma Regroup(x: string, a: string, m: string, b: string)
    ensures x + (a + m + b) == (x + a) + m + b
  {}

  /** A string around the first occurrence of a character. */
  lemma Around(s: string, c: char)
    requires Index(s, c) >= 0
    ensures var i := Index(s, c); c !in s[..i] && s == s[..i] + [c] + s[i + 1..]
  {
    IndexMeans(s, c);
  }

  lemma JoinFirst(a: string, parts: seq<string>, c: char)
    requires |parts| > 0
    ensures Join([a] + parts, c) == a + [c] + Join(parts, c)
  {
    assert ([a] + parts)[1..] == parts;
  }

  lemma {:induction false} JoinSplit(s: string, c: char)
    ensures |Split(s, c)| > 0 && Join(Split(s, c), c) == s
    decreases |s|
  {
    var i := Index(s, c);
    if i >= 0 {
      Around(s, c);
      JoinSplit(s[i + 1..], c);
      JoinFirst(s[..i], Split(s[i + 1..], c), c);
    }
  }

  lemma {:induction false} SplitWithout(s: string, c: char)
    ensures Without(Split(s, c), c)
    decreases |s|
  {
    IndexMeans(s, c);
    if Index(s, c) >= 0 {
      SplitWithout(s[Index(s, c) + 1..], c);
    }
  }

  lemma SplitFirst(a: string, c: char, b: string)
    requires c !in a
    ensures Split(a + [c] + b, c) == [a] + Split(b, c)
  {
    IndexIs(a, c, b);
    assert (a + [c] + b)[..|a|] == a && (a + [c] + b)[|a| + 1..] == b;
  }

  lemma SplitNone(s: string, c: char)
    requires c !in s
    ensures Split(s, c) == [s]
  {
    IndexMeans(s, c);
  }

  lemma {:induction false} SplitJoin(parts: seq<string>, c: char)
    requires |parts| > 0 && Without(parts, c)
    ensures Split(Join(parts, c), c) == parts
  {
    if |parts| == 1 {
      SplitNone(parts[0], c);
    } else {
      SplitJoin(parts[1..], c);
      SplitFirst(parts[0], c, Join(parts[1..], c));
      assert parts == [parts[0]] + parts[1..];
    }
  }

  // ---------- Shell input ----------

  const FORBIDDEN: string := ";&|<>()`'\"$!"

  /** Neither a space nor a character with a meaning to a shell. */
  predicate ShellSafe(s: string) {
    forall c | c in s :: c !in {' ', ';', '&', '|', '<', '>', '(', ')', '`', '\'', '"', '$', '!'}
  }

  lemma ForbiddenAre()
    ensures forall c | c in {';', '&', '|', '<', '>', '(', ')', '`', '\'', '"', '$', '!'} :: c in FORBIDDEN
  {
    assert FORBIDDEN[0] == ';' && FORBIDDEN[1] == '&' && FORBIDDEN[2] == '|' && FORBIDDEN[3] == '<';
    assert FORBIDDEN[4] == '>' && FORBIDDEN[5] == '(' && FORBIDDEN[6] == ')' && FORBIDDEN[7] == '`';
    assert FORBIDDEN[8] == '\'' && FORBIDDEN[9] == '"' && FORBIDDEN[10] == '$' && FORBIDDEN[11] == '!';
  }

  method IsValidShellInput(input: string) returns (ok: bool)
    ensures ok == ShellSafe(input)
  {
    if ' ' in input {
      return false;
    }
    for i := 0 to |FORBIDDEN|
      invariant forall j | 0 <= j < i :: FORBIDDEN[j] !in input
    {
      if FORBIDDEN[i] in input {
        return false;
      }
    }
    assert forall c | c in FORBIDDEN :: c !in input;
    ForbiddenAre();
    return true;
  }

  // ---------- Mount handles ----------

  datatype Nid = Nid(ip: string, lnet: string)

  function Segment(n: Nid): string {
    n.ip + "@" + n.lnet
  }

  function Segments(nids: seq<Nid>, path: string): seq<string> {
    if nids == [] then [path] else [Segment(nids[0])] + Segments(nids[1..], path)
  }

  /** A mount handle as it is documented: NIDs and a path, with colons between. */
  function Render(nids: seq<Nid>, path: string): string
    requires |Segments(nids, path)| > 0
  {
    Join(Segments(nids, path), ':')
  }

  predicate GoodNid(parse: string -> Kind, n: Nid) {
    && parse(n.ip) != NoAddress && '@' !in n.ip && ':' !in n.ip
    && '@' !in n.lnet && ':' !in n.lnet && ShellSafe(n.lnet)
  }

  predicate GoodPath(path: string) {
    path != "" && path[0] == '/' && ':' !in path && ShellSafe(path)
  }

  ghost predicate Good(parse: string -> Kind, nids: seq<Nid>, path: string) {
    nids != [] && (forall i | 0 <= i < |nids| :: GoodNid(parse, nids[i])) && GoodPath(path)
  }

  /** What the validation asks of one segment: two parts around one '@'. */
  predicate GoodSegment(parse: string -> Kind, t: string) {
    var parts := Split(t, '@');
    |parts| == 2 && parse(parts[0]) != NoAddress && ShellSafe(parts[1])
  }

  predicate GoodParts(parse: string -> Kind, parts: seq<string>) {
    && |parts| >= 2 && (forall i | 0 <= i < |parts| - 1 :: GoodSegment(parse, parts[i]))
    && parts[|parts| - 1] != "" && parts[|parts| - 1][0] == '/' && ShellSafe(parts[|parts| - 1])
  }

  /** The network label of the last NID. */
  function LabelOf(parts: seq<string>): Option<string> {
    if |parts| < 2 || |Split(parts[|parts| - 2], '@')| != 2 then None else Some(Split(parts[|parts| - 2], '@')[1])
  }

  method ValidateLustreVolumeId(parse: string -> Kind, id: string) returns (valid: bool, lnetLabel: string)
    ensures valid == GoodParts(parse, Split(id, ':'))
    ensures valid ==> LabelOf(Split(id, ':')) == Some(lnetLabel)
  {
    lnetLabel := "";
    var splits := Split(id, ':');
    if |splits| < 2 {
      return false, lnetLabel;
    }
    for i := 0 to |splits| - 1
      invariant forall j | 0 <= j < i :: GoodSegment(parse, splits[j])
      invariant i > 0 ==> |Split(splits[i - 1], '@')| == 2 && lnetLabel == Split(splits[i - 1], '@')[1]
    {
      var parts := Split(splits[i], '@');
      if |parts| != 2 {
        return false, lnetLabel;
      }
      if parse(parts[0]) == NoAddress {
        return false, lnetLabel;
      }
      lnetLabel := parts[1];
      var ok := IsValidShellInput(lnetLabel);
      if !ok {
        return false, "";
      }
    }
    var last := splits[|splits| - 1];
    var ok := IsValidShellInput(last);
    return last != "" && last[0] == '/' && ok, lnetLabel;
  }

  // ---------- Exactly the documented handles are valid ----------

  lemma {:induction false} SegmentsLast(nids: seq<Nid>, path: string)
    ensures |Segments(nids, path)| == |nids| + 1 && Segments(nids, path)[|nids|] == path
    ensures forall i | 0 <= i < |nids| :: Segments(nids, path)[i] == Segment(nids[i])
  {
    if nids != [] {
      SegmentsLast(nids[1..], path);
      var s := Segments(nids, path);
      assert s[1..] == Segments(nids[1..], path);
      forall i | 0 <= i < |nids| ensures s[i] == Segment(nids[i]) {
        if i > 0 {
          assert s[i] == s[1..][i - 1] && nids[i] == nids[1..][i - 1];
        }
      }
    }
  }

  lemma SegmentSplits(n: Nid)
    requires '@' !in n.ip && '@' !in n.lnet
    ensures Split(Segment(n), '@') == [n.ip, n.lnet]
  {
    SplitFirst(n.ip, '@', n.lnet);
    SplitNone(n.lnet, '@');
  }

  lemma SegmentParts(t: string)
    requires |Split(t, '@')| == 2 && ':' !in t
    ensures var n := Nid(Split(t, '@')[0], Split(t, '@')[1]);
            t == Segment(n) && '@' !in n.ip && '@' !in n.lnet && ':' !in n.ip && ':' !in n.lnet
  {
    JoinSplit(t, '@');
    SplitWithout(t, '@');
    var p := Split(t, '@');
    assert Join(p[1..], '@') == p[1];
    assert t == p[0] + ['@'] + p[1];
  }

  /** Every documented handle is valid, with the label of its last NID. */
  lemma RenderedIsValid(parse: string -> Kind, nids: seq<Nid>, path: string)
    requires Good(parse, nids, path)
    ensures |Segments(nids, path)| == |nids| + 1 && Split(Render(nids, path), ':') == Segments(nids, path)
    ensures GoodParts(parse, Segments(nids, path))
    ensures Split(Segments(nids, path)[|nids| - 1], '@') == [nids[|nids| - 1].ip, nids[|nids| - 1].lnet]
  {
    var s := Segments(nids, path);
    SegmentsLast(nids, path);
    forall i | 0 <= i < |nids| ensures ':' !in s[i] && GoodSegment(parse, s[i]) {
      assert GoodNid(parse, nids[i]);
      SegmentSplits(nids[i]);
    }
    SegmentSplits(nids[|nids| - 1]);
    assert Without(s, ':');
    SplitJoin(s, ':');
  }

  /** Every valid handle is a documented one. */
  lemma {:induction false} ValidIsRendered(parse: string -> Kind, parts: seq<string>) returns (nids: seq<Nid>)
    requires GoodParts(parse, parts) && Without(parts, ':')
    ensures Good(parse, nids, parts[|parts| - 1]) && Segments(nids, parts[|parts| - 1]) == parts
  {
    var p := Split(parts[0], '@');
    assert GoodSegment(parse, parts[0]);
    SegmentParts(parts[0]);
    var n := Nid(p[0], p[1]);
    if |parts| == 2 {
      nids := [n];
      assert Segments([n], parts[1]) == parts;
    } else {
      var rest := ValidIsRendered(parse, parts[1..]);
      nids := [n] + rest;
      assert nids[1..] == rest && parts == [parts[0]] + parts[1..];
    }
  }

  /** The validation accepts exactly the documented handles. */
  lemma ValidIff(parse: string -> Kind, id: string)
    ensures GoodParts(parse, Split(id, ':')) <==>
            exists nids, path :: Good(parse, nids, path) && |Segments(nids, path)| > 0 && Render(nids, path) == id
  {
    JoinSplit(id, ':');
    SplitWithout(id, ':');
    var parts := Split(id, ':');
    if GoodParts(parse, parts) {
      var nids := ValidIsRendered(parse, parts);
      assert Render(nids, parts[|parts| - 1]) == id;
    }
    forall nids, path | Good(parse, nids, path) && |Segments(nids, path)| > 0 && Render(nids, path) == id
      ensures GoodParts(parse, parts)
    {
      RenderedIsValid(parse, nids, path);
    }
  }

  // ---------- Handles with an OCID ----------

  function MountHandle(address: string, lnet: string, fsName: string): string {
    address + "@" + lnet + ":/" + fsName
  }

  function BuildLustreVolumeHandle(id: string, address: string, lnet: string, fsName: string): string {
    id + ":" + MountHandle(address, lnet, fsName)
  }

  function ExtractLustreFilesystemId(volume: string): string {
    if volume == "" || !("ocid" <= volume) then ""
    else var i := Index(volume, ':'); if i == -1 then "" else volume[..i]
  }

  function StripLustreOCIDPrefix(volume: string): string {
    var at, colon := Index(volume, '@'), Index(volume, ':');
    if at > 0 && 0 <= colon < at then volume[colon + 1..] else volume
  }

  lemma PrefixOfId(id: string, rest: string)
    ensures "ocid" <= id + ":" + rest <==> "ocid" <= id
  {
    var v := id + ":" + rest;
    if |id| >= 4 {
      assert v[..4] == id[..4];
    } else {
      assert v[|id|] == ':' && "ocid"[|id|] != ':';
    }
  }

  /** The first colon is at the end of the id exactly when the id holds none. */
  lemma ColonAfterIdIff(id: string, rest: string)
    ensures 0 <= Index(id + ":" + rest, ':') <= |id|
    ensures Index(id + ":" + rest, ':') == |id| <==> ':' !in id
  {
    var v := id + ":" + rest;
    if ':' !in id {
      IndexIs(id, ':', rest);
    } else {
      IndexMeans(id, ':');
      var i := Index(id, ':');
      assert v == id[..i] + [':'] + (id[i + 1..] + ":" + rest);
      IndexIs(id[..i], ':', id[i + 1..] + ":" + rest);
    }
  }

  /** The OCID comes back exactly when it looks like one and holds no colon, or is empty. */
  lemma ExtractBuiltIff(id: string, address: string, lnet: string, fsName: string)
    ensures ExtractLustreFilesystemId(BuildLustreVolumeHandle(id, address, lnet, fsName)) == id <==>
            ("ocid" <= id && ':' !in id) || id == ""
  {
    var rest := MountHandle(address, lnet, fsName);
    var v := id + ":" + rest;
    PrefixOfId(id, rest);
    ColonAfterIdIff(id, rest);
    assert v[..|id|] == id;
    assert |v[..Index(v, ':')]| == Index(v, ':');
  }

  lemma AtAfterId(id: string, rest: string)
    requires '@' !in id && '@' in rest
    ensures Index(id + ":" + rest, '@') > |id|
  {
    IndexMeans(rest, '@');
    Around(rest, '@');
    var i := Index(rest, '@');
    Regroup(id + ":", rest[..i], ['@'], rest[i + 1..]);
    IndexIs(id + ":" + rest[..i], '@', rest[i + 1..]);
  }

  lemma AtWithinId(id: string, rest: string)
    requires '@' in id
    ensures 0 <= Index(id + ":" + rest, '@') < |id|
  {
    IndexMeans(id, '@');
    var i := Index(id, '@');
    assert id + ":" + rest == id[..i] + ['@'] + (id[i + 1..] + ":" + rest);
    IndexIs(id[..i], '@', id[i + 1..] + ":" + rest);
  }

  /** Stripping a built handle leaves the mount handle exactly when the OCID holds neither mark. */
  lemma StripBuiltIff(id: string, address: string, lnet: string, fsName: string)
    ensures StripLustreOCIDPrefix(BuildLustreVolumeHandle(id, address, lnet, fsName)) ==
            MountHandle(address, lnet, fsName) <==>
            ':' !in id && '@' !in id
  {
    var rest := MountHandle(address, lnet, fsName);
    var v := id + ":" + rest;
    assert rest[|address|] == '@';
    ColonAfterIdIff(id, rest);
    if '@' in id {
      AtWithinId(id, rest);
    } else {
      AtAfterId(id, rest);
    }
    assert v[|id| + 1..] == rest;
    assert |v[Index(v, ':') + 1..]| == |v| - Index(v, ':') - 1;
  }

  /** An at-sign before the first colon: there is no OCID. */
  lemma AtBeforeColon(n: Nid, rest: string)
    requires '@' !in n.ip && ':' !in Segment(n)
    ensures StripLustreOCIDPrefix(Segment(n) + [':'] + rest) == Segment(n) + [':'] + rest
  {
    IndexIs(Segment(n), ':', rest);
    assert Segment(n) + [':'] + rest == n.ip + ['@'] + (n.lnet + [':'] + rest);
    IndexIs(n.ip, '@', n.lnet + [':'] + rest);
  }

  /** Every valid mount handle is left as it is, however many NIDs it has. */
  lemma ValidIsNotStripped(parse: string -> Kind, id: string)
    requires GoodParts(parse, Split(id, ':'))
    ensures StripLustreOCIDPrefix(id) == id
  {
    var parts := Split(id, ':');
    JoinSplit(id, ':');
    SplitWithout(id, ':');
    assert GoodSegment(parse, parts[0]);
    SegmentParts(parts[0]);
    AtBeforeColon(Nid(Split(parts[0], '@')[0], Split(parts[0], '@')[1]), Join(parts[1..], ':'));
  }

  /** The mount handle of one NID, as it is documented. */
  lemma MountHandleRenders(n: Nid, fsName: string)
    ensures Segments([n], "/" + fsName) == [Segment(n), "/" + fsName]
    ensures Render([n], "/" + fsName) == MountHandle(n.ip, n.lnet, fsName)
  {
    var path := "/" + fsName;
    assert Segments([n], path) == [Segment(n)] + [path];
    JoinFirst(Segment(n), [path], ':');
    assert Segment(n) + [':'] + ("/" + fsName) == Segment(n) + ":/" + fsName;
  }

  /** A volume provisioned with a plain OCID, address, label and name: the OCID comes back from the
      handle, the volume is staged under a valid mount handle whose validation returns the label, and
      stripping twice is stripping once. */
  lemma BuiltStripsToValid(parse: string -> Kind, id: string, n: Nid, fsName: string)
    requires ':' !in id && '@' !in id && GoodNid(parse, n) && ':' !in fsName && ShellSafe(fsName)
    ensures var v := BuildLustreVolumeHandle(id, n.ip, n.lnet, fsName);
            var h := StripLustreOCIDPrefix(v);
            && h == MountHandle(n.ip, n.lnet, fsName) && StripLustreOCIDPrefix(h) == h
            && GoodParts(parse, Split(h, ':')) && LabelOf(Split(h, ':')) == Some(n.lnet)
            && ("ocid" <= id ==> ExtractLustreFilesystemId(v) == id)
  {
    StripBuiltIff(id, n.ip, n.lnet, fsName);
    ExtractBuiltIff(id, n.ip, n.lnet, fsName);
    MountHandleIsValid(parse, n, fsName);
    ValidIsNotStripped(parse, MountHandle(n.ip, n.lnet, fsName));
  }

  lemma MountHandleIsValid(parse: string -> Kind, n: Nid, fsName: string)
    requires GoodNid(parse, n) && ':' !in fsName && ShellSafe(fsName)
    ensures var parts := Split(MountHandle(n.ip, n.lnet, fsName), ':');
            GoodParts(parse, parts) && LabelOf(parts) == Some(n.lnet)
  {
    var path := "/" + fsName;
    assert GoodPath(path);
    assert Good(parse, [n], path);
    RenderedIsValid(parse, [n], path);
    MountHandleRenders(n, fsName);
  }
}
