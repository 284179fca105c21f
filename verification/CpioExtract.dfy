/** Extracting one directory tree from a stream of cpio entries in the portable (odc) form. */
module CpioExtract {
  import opened ByteStream
  import opened Wrappers

  const MAGIC: seq<byte> := [48, 55, 48, 55, 48, 55]
  const TRAILER: seq<byte> := [84, 82, 65, 73, 76, 69, 82, 33, 33, 33]
  const SLASH: byte := 47
  const DOT: byte := 46
  const HEADER: nat := 76

  datatype Failure = TruncatedStream | BadFormat | BadNumber | Unsupported(name: seq<byte>) | NoMember

  datatype Head = Head(name: seq<byte>, mode: nat, size: nat)

  datatype Action =
    | MakeDir(path: seq<byte>)
    | MakeLink(path: seq<byte>, link: seq<byte>)
    | WriteFile(path: seq<byte>, data: seq<byte>)
    | SetMode(path: seq<byte>, mode: nat)

  /** The tree wanted, what to leave out of it (each with a slash at its end), and where a link in a directory leads. */
  datatype Request = Request(member: seq<byte>, excludes: seq<seq<byte>>, resolve: (seq<byte>, seq<byte>) -> seq<byte>)

  // ---- headers ----

  predicate IsOctal(digits: seq<byte>) {
    digits != [] && forall i :: 0 <= i < |digits| ==> 48 <= digits[i] < 56
  }

  function OctalValue(digits: seq<byte>): nat
    requires forall i :: 0 <= i < |digits| ==> 48 <= digits[i] < 56
  {
    if digits == [] then 0 else 8 * OctalValue(digits[..|digits| - 1]) + (digits[|digits| - 1] - 48)
  }

  function ParseOctal(digits: seq<byte>): Option<nat> {
    if IsOctal(digits) then Some(OctalValue(digits)) else None
  }

  function HeaderFields(header: seq<byte>): Result<(nat, nat, nat), Failure>
    requires |header| == HEADER
  {
    var mode, namesize, size := ParseOctal(header[18..24]), ParseOctal(header[59..65]), ParseOctal(header[65..76]);
    if header[..6] != MAGIC then Err(BadFormat)
    else if mode.None? || namesize.None? || size.None? then Err(BadNumber)
    else Ok((mode.value, namesize.value, size.value))
  }

  /** The name without the byte that ends it. */
  function NameOf(raw: seq<byte>): seq<byte> {
    if raw == [] then [] else raw[..|raw| - 1]
  }

  /** The next entry's head, or none at the trailer, and how many bytes it takes. */
  function ParseHead(bytes: seq<byte>): (r: Result<(Option<Head>, nat), Failure>)
    ensures r.Ok? ==> HEADER <= r.value.1 <= |bytes|
  {
    if |bytes| < HEADER then Err(TruncatedStream)
    else
      match HeaderFields(bytes[..HEADER])
      case Err(f) => Err(f)
      case Ok(fields) =>
        var end := HEADER + fields.1;
        if |bytes| < end then Err(TruncatedStream)
        else
          var name := NameOf(bytes[HEADER..end]);
          Ok((if name == TRAILER then None else Some(Head(name, fields.0, fields.2)), end))
  }

  method NextHead(stream: Stream) returns (r: Result<Option<Head>, Failure>)
    modifies stream
    ensures match ParseHead(old(stream.Rest()))
            case Err(f) => r == Err(f)
            case Ok(p) => r == Ok(p.0) && stream.Rest() == old(stream.Rest())[p.1..]
  {
    hide Stream.Rest, HeaderFields, NameOf;
    ghost var all := stream.Rest();
    var header := stream.Read(HEADER);
    if header.Err? {
      return Err(TruncatedStream);
    }
    var fields := HeaderFields(header.value);
    if fields.Err? {
      return Err(fields.error);
    }
    var raw := stream.Read(fields.value.1);
    if raw.Err? {
      return Err(TruncatedStream);
    }
    assert raw.value == all[HEADER..HEADER + fields.value.1];
    assert all[HEADER..][fields.value.1..] == all[HEADER + fields.value.1..];
    var name := NameOf(raw.value);
    return Ok(if name == TRAILER then None else Some(Head(name, fields.value.0, fields.value.2)));
  }

  // ---- one entry ----

  datatype Kind = Directory | SymbolicLink | Regular | OtherKind

  function KindOf(mode: nat): Kind {
    var format := mode / 0x1000 % 16;
    if format == 4 then Directory else if format == 10 then SymbolicLink else if format == 8 then Regular else OtherKind
  }

  function Permissions(mode: nat): (r: nat)
    ensures r < 512
  {
    mode % 512
  }

  function Rights(mode: nat): bv9 {
    Permissions(mode) as bv9
  }

  /** The mode a file is given: its permissions, read for all and write for the owner. */
  function FileMode(mode: nat): nat {
    (Rights(mode) | 0x1a4) as nat
  }

  /** The place of the entry in the wanted tree, if it has one. */
  function Relative(name: seq<byte>, member: seq<byte>): Option<seq<byte>> {
    var plain := if [DOT, SLASH] <= name then name[2..] else name;
    if plain == member then Some([])
    else if member + [SLASH] <= plain then Some(plain[|member| + 1..])
    else None
  }

  predicate Excluded(rel: seq<byte>, excludes: seq<seq<byte>>) {
    exists i :: 0 <= i < |excludes| && excludes[i] <= rel + [SLASH]
  }

  function Wanted(name: seq<byte>, request: Request): Option<seq<byte>> {
    var rel := Relative(name, request.member);
    if rel.Some? && !Excluded(rel.value, request.excludes) then rel else None
  }

  /** A link to a directory the link lies in. */
  predicate ToAncestor(rel: seq<byte>, link: seq<byte>, request: Request) {
    var target := request.resolve(rel, link);
    !([SLASH] <= link) && (target == [DOT] || target + [SLASH] <= rel + [SLASH])
  }

  datatype Visit = Visit(actions: seq<Action>, rest: seq<byte>, failure: Option<Failure>)

  /** What an entry has done, given the bytes after its head: the bytes of its data are consumed, no more and no fewer. */
  function Visited(head: Head, bytes: seq<byte>, request: Request): (r: Visit)
    ensures r.failure.None? ==> |bytes| >= head.size && r.rest == bytes[head.size..]
  {
    var rel := Wanted(head.name, request);
    var enough := |bytes| >= head.size;
    var rest := if enough then bytes[head.size..] else [];
    var failure := if enough then None else Some(TruncatedStream);
    if rel.None? then Visit([], rest, failure)
    else
      match KindOf(head.mode)
      case Directory => Visit([MakeDir(rel.value)], rest, failure)
      case SymbolicLink =>
        if !enough then Visit([], bytes, failure)
        else Visit(if ToAncestor(rel.value, bytes[..head.size], request) then [] else [MakeLink(rel.value, bytes[..head.size])], rest, None)
      case Regular =>
        if !enough then Visit([WriteFile(rel.value, bytes)], rest, failure)
        else Visit([WriteFile(rel.value, bytes[..head.size]), SetMode(rel.value, FileMode(head.mode))], rest, None)
      case OtherKind => Visit([], bytes, Some(Unsupported(head.name)))
  }

  method VisitEntry(stream: Stream, head: Head, request: Request) returns (actions: seq<Action>, failure: Option<Failure>)
    modifies stream
    ensures var v := Visited(head, old(stream.Rest()), request);
            actions == v.actions && failure == v.failure && stream.Rest() == v.rest
  {
    hide Stream.Rest, Wanted, KindOf, FileMode;
    actions, failure := [], None;
    ghost var all := stream.Rest();
    var rel := Wanted(head.name, request);
    if rel.None? {
      var r := stream.Copy(head.size, null);
      return [], if r.Ok? then None else Some(TruncatedStream);
    }
    match KindOf(head.mode)
    case Directory =>
      actions := [MakeDir(rel.value)];
      var r := stream.Copy(head.size, null);
      failure := if r.Ok? then None else Some(TruncatedStream);
    case SymbolicLink =>
      var link := stream.Read(head.size);
      if link.Err? {
        return [], Some(TruncatedStream);
      }
      if ToAncestor(rel.value, link.value, request) {
        return;
      }
      actions := [MakeLink(rel.value, link.value)];
    case Regular =>
      var out := new Sink();
      var r := stream.Copy(head.size, out);
      assert |all| < head.size ==> out.data == all;
      assert |all| >= head.size ==> out.data == all[..head.size];
      actions := [WriteFile(rel.value, out.data)];
      if r.Err? {
        return actions, Some(TruncatedStream);
      }
      actions := actions + [SetMode(rel.value, FileMode(head.mode))];
    case OtherKind =>
      failure := Some(Unsupported(head.name));
  }

  // ---- the whole stream ----

  function Extracted(bytes: seq<byte>, request: Request, found: bool): (seq<Action>, Result<(), Failure>)
    decreases |bytes|
  {
    match ParseHead(bytes)
    case Err(f) => ([], Err(f))
    case Ok((None, _)) => ([], if found then Ok(()) else Err(NoMember))
    case Ok((Some(head), used)) =>
      var v := Visited(head, bytes[used..], request);
      if v.failure.Some? then (v.actions, Err(v.failure.value))
      else
        var later := Extracted(v.rest, request, found || Wanted(head.name, request).Some?);
        (v.actions + later.0, later.1)
  }

  lemma ExtractedEnds(bytes: seq<byte>, request: Request, found: bool)
    ensures ParseHead(bytes).Err? ==> Extracted(bytes, request, found) == ([], Err(ParseHead(bytes).error))
    ensures ParseHead(bytes).Ok? && ParseHead(bytes).value.0.None? ==>
              Extracted(bytes, request, found) == ([], if found then Ok(()) else Err(NoMember))
  {
    hide ParseHead, Visited, Wanted;
  }

  lemma ExtractedStep(bytes: seq<byte>, request: Request, found: bool)
    requires ParseHead(bytes).Ok? && ParseHead(bytes).value.0.Some?
    ensures var head := ParseHead(bytes).value.0.value;
            var v := Visited(head, bytes[ParseHead(bytes).value.1..], request);
      && (v.failure.Some? ==> Extracted(bytes, request, found) == (v.actions, Err(v.failure.value)))
      && (v.failure.None? ==>
            var later := Extracted(v.rest, request, found || Wanted(head.name, request).Some?);
            Extracted(bytes, request, found) == (v.actions + later.0, later.1))
  {
    hide ParseHead, Visited, Wanted;
  }

  /**
   The extraction depends on the bytes of the stream alone, whatever chunks
   they come in, on complete, cut off and malformed streams alike.
   */
  method Extract(stream: Stream, request: Request) returns (actions: seq<Action>, outcome: Result<(), Failure>)
    modifies stream
    ensures actions == Extracted(old(stream.Rest()), request, false).0
    ensures outcome == Extracted(old(stream.Rest()), request, false).1
  {
    hide Stream.Rest, ParseHead, Visited, Wanted, Extracted;
    ghost var all := stream.Rest();
    var found := false;
    actions := [];
    while true
      invariant Extracted(all, request, false).0 == actions + Extracted(stream.Rest(), request, found).0
      invariant Extracted(all, request, false).1 == Extracted(stream.Rest(), request, found).1
      decreases |stream.Rest()|
    {
      ghost var bytes := stream.Rest();
      ExtractedEnds(bytes, request, found);
      var head := NextHead(stream);
      if head.Err? {
        return actions, Err(head.error);
      }
      if head.value.None? {
        return actions, if found then Ok(()) else Err(NoMember);
      }
      ExtractedStep(bytes, request, found);
      var more, failure := VisitEntry(stream, head.value.value, request);
      actions := actions + more;
      if failure.Some? {
        return actions, Err(failure.value);
      }
      found := found || Wanted(head.value.value.name, request).Some?;
    }
  }

  // ---- archives ----

  datatype Entry = Entry(name: seq<byte>, mode: nat, data: seq<byte>, device: seq<byte>, owner: seq<byte>)

  function Octal(n: nat, width: nat): (r: seq<byte>)
    ensures |r| == width && forall i :: 0 <= i < width ==> 48 <= r[i] < 56
  {
    if width == 0 then [] else Octal(n / 8, width - 1) + [48 + n % 8]
  }

  function Pow8(width: nat): nat {
    if width == 0 then 1 else 8 * Pow8(width - 1)
  }

  lemma {:induction false} OctalRoundTrip(n: nat, width: nat)
    requires n < Pow8(width)
    ensures OctalValue(Octal(n, width)) == n
  {
    if width > 0 {
      OctalRoundTrip(n / 8, width - 1);
      assert Octal(n, width)[..width - 1] == Octal(n / 8, width - 1);
    }
  }

  ghost predicate Writable(e: Entry) {
    && |e.device| == 12 && |e.owner| == 35
    && e.mode < Pow8(6) && |e.name| + 1 < Pow8(6) && |e.data| < Pow8(11)
  }

  function HeaderBytes(e: Entry): seq<byte> {
    MAGIC + e.device + Octal(e.mode, 6) + e.owner + Octal(|e.name| + 1, 6) + Octal(|e.data|, 11)
  }

  function EntryBytes(e: Entry): seq<byte> {
    HeaderBytes(e) + (e.name + [0]) + e.data
  }

  function EntriesBytes(entries: seq<Entry>): seq<byte> {
    if entries == [] then [] else EntryBytes(entries[0]) + EntriesBytes(entries[1..])
  }

  ghost predicate AllWritable(entries: seq<Entry>) {
    forall i {:trigger entries[i]} :: 0 <= i < |entries| ==> Writable(entries[i]) && entries[i].name != TRAILER
  }

  lemma FieldRoundTrip(n: nat, width: nat)
    requires n < Pow8(width) && width > 0
    ensures ParseOctal(Octal(n, width)) == Some(n)
  {
    OctalRoundTrip(n, width);
  }

  lemma HeaderReadsBack(e: Entry)
    requires Writable(e)
    ensures |HeaderBytes(e)| == HEADER && HeaderFields(HeaderBytes(e)) == Ok((e.mode, |e.name| + 1, |e.data|))
  {
    hide ParseOctal, Octal, Pow8;
    FieldRoundTrip(e.mode, 6);
    FieldRoundTrip(|e.name| + 1, 6);
    FieldRoundTrip(|e.data|, 11);
    var h := HeaderBytes(e);
    assert |MAGIC| == 6;
    assert h[..6] == MAGIC;
    assert h[18..24] == Octal(e.mode, 6);
    assert h[59..65] == Octal(|e.name| + 1, 6);
    assert h[65..76] == Octal(|e.data|, 11);
  }

  /** The head of a written entry is read back, whatever bytes follow. */
  lemma HeadReadsBack(e: Entry, after: seq<byte>)
    requires Writable(e)
    ensures ParseHead(HeaderBytes(e) + (e.name + [0]) + after)
         == Ok((if e.name == TRAILER then None else Some(Head(e.name, e.mode, |e.data|)), HEADER + |e.name| + 1))
  {
    hide HeaderFields, HeaderBytes;
    HeaderReadsBack(e);
    var bytes := HeaderBytes(e) + (e.name + [0]) + after;
    assert bytes[..HEADER] == HeaderBytes(e);
    assert bytes[HEADER..HEADER + |e.name| + 1] == e.name + [0];
    assert NameOf(e.name + [0]) == e.name;
  }

  /** What the entries ask for, one after the other, each with its own data. */
  ghost function Planned(entries: seq<Entry>, request: Request, found: bool): (seq<Action>, Result<(), Failure>) {
    if entries == [] then ([], if found then Ok(()) else Err(NoMember))
    else
      var e := entries[0];
      var v := Visited(Head(e.name, e.mode, |e.data|), e.data, request);
      if v.failure.Some? then (v.actions, Err(v.failure.value))
      else
        var later := Planned(entries[1..], request, found || Wanted(e.name, request).Some?);
        (v.actions + later.0, later.1)
  }

  lemma VisitedInPlace(e: Entry, after: seq<byte>, request: Request)
    ensures var head := Head(e.name, e.mode, |e.data|);
            && Visited(head, e.data + after, request).actions == Visited(head, e.data, request).actions
            && Visited(head, e.data + after, request).failure == Visited(head, e.data, request).failure
            && (Visited(head, e.data, request).failure.None? ==> Visited(head, e.data + after, request).rest == after)
  {
    hide Wanted, KindOf, FileMode, ToAncestor;
    assert (e.data + after)[..|e.data|] == e.data && e.data[..|e.data|] == e.data;
    assert (e.data + after)[|e.data|..] == after;
  }

  /**
   The loop visits exactly the entries of an archive, in order, each with its
   own data, up to the first it does not support; nothing after the trailer
   is looked at.
   */
  lemma {:induction false} VisitsTheEntries(entries: seq<Entry>, trailer: Entry, after: seq<byte>, request: Request, found: bool)
    requires AllWritable(entries) && Writable(trailer) && trailer.name == TRAILER
    ensures Extracted(EntriesBytes(entries) + EntryBytes(trailer) + after, request, found) == Planned(entries, request, found)
    decreases |entries|
  {
    hide ParseHead, Visited, Wanted, HeaderBytes, Writable;
    var bytes := EntriesBytes(entries) + EntryBytes(trailer) + after;
    if entries == [] {
      assert bytes == HeaderBytes(trailer) + (trailer.name + [0]) + (trailer.data + after);
      HeadReadsBack(trailer, trailer.data + after);
    } else {
      var e := entries[0];
      var later := EntriesBytes(entries[1..]) + EntryBytes(trailer) + after;
      assert Writable(e) && e.name != TRAILER;
      assert bytes == HeaderBytes(e) + (e.name + [0]) + (e.data + later);
      HeadReadsBack(e, e.data + later);
      HeaderLength(e);
      assert bytes[HEADER + |e.name| + 1..] == e.data + later;
      VisitedInPlace(e, later, request);
      assert forall i :: 0 <= i < |entries| - 1 ==> entries[1..][i] == entries[i + 1];
      VisitsTheEntries(entries[1..], trailer, after, request, found || Wanted(e.name, request).Some?);
    }
  }

  lemma HeaderLength(e: Entry)
    requires Writable(e)
    ensures |HeaderBytes(e)| == HEADER
  {
    HeaderReadsBack(e);
  }

  // ---- what each kind of entry asks for ----

  /** A mode put together: bits of no meaning, what the entry is, the three special bits, and nine permission bits. */
  function ModeOf(high: nat, format: nat, special: nat, permissions: nat): nat {
    0x10000 * high + 0x1000 * format + 0x200 * special + permissions
  }

  lemma ModeReadsBack(high: nat, format: nat, special: nat, permissions: nat)
    requires format < 16 && special < 8 && permissions < 512
    ensures var mode := ModeOf(high, format, special, permissions);
      && Permissions(mode) == permissions
      && KindOf(mode) == if format == 4 then Directory else if format == 10 then SymbolicLink else if format == 8 then Regular else OtherKind
  {
    var mode := ModeOf(high, format, special, permissions);
    FormatPart(16 * high + format, 0x200 * special + permissions);
    PermissionPart(0x80 * high + 8 * format + special, permissions);
    assert (16 * high + format) % 16 == format;
  }

  lemma FormatPart(a: nat, b: nat)
    requires b < 0x1000
    ensures (0x1000 * a + b) / 0x1000 == a
  {
  }

  lemma PermissionPart(a: nat, b: nat)
    requires b < 0x200
    ensures (0x200 * a + b) % 512 == b
  {
  }

  lemma BitsAreNumber(x: bv9)
    ensures (x as nat) as bv9 == x && x as nat < 512
  {
  }

  lemma SmallModes(n: nat)
    requires n < 512
    ensures Permissions(n) == n
  {
  }

  lemma EitherBit(x: bv9, right: bv9)
    ensures (x | 0x1a4) & right != 0 <==> x & right != 0 || right & 0x1a4 != 0
  {
  }

  /** A file gets exactly the rights its entry gives, and those to read it, and for the owner to write it. */
  lemma RightsGiven(mode: nat, right: bv9)
    ensures Rights(FileMode(mode)) & right != 0 <==> Rights(mode) & right != 0 || right & 0x1a4 != 0
    ensures FileMode(mode) < 512
  {
    hide Permissions;
    BitsAreNumber(Rights(mode) | 0x1a4);
    SmallModes(FileMode(mode));
    EitherBit(Rights(mode), right);
  }

  /** Wanted are the member and what lies in it, at its place there. */
  lemma RelativeIs(name: seq<byte>, member: seq<byte>, rel: seq<byte>)
    requires !([DOT, SLASH] <= name)
    ensures Relative([DOT, SLASH] + name, member) == Relative(name, member)
    ensures Relative(name, member) == Some(rel) <==> (name == member && rel == []) || name == member + [SLASH] + rel
  {
    assert ([DOT, SLASH] + name)[2..] == name;
    if name == member + [SLASH] + rel {
      assert name[..|member| + 1] == member + [SLASH] && name[|member| + 1..] == rel;
    }
    if member + [SLASH] <= name {
      assert name == member + [SLASH] + name[|member| + 1..];
    }
  }

  /** The path is the directory or lies under it. */
  ghost predicate Under(path: seq<byte>, dir: seq<byte>) {
    path == dir || exists rest :: path == dir + [SLASH] + rest
  }

  lemma UnderIsPrefix(path: seq<byte>, dir: seq<byte>)
    ensures Under(path, dir) <==> dir + [SLASH] <= path + [SLASH]
  {
    if dir + [SLASH] <= path + [SLASH] {
      if |path| > |dir| {
        assert path[..|dir| + 1] == (path + [SLASH])[..|dir| + 1];
        assert path == dir + [SLASH] + path[|dir| + 1..];
      } else {
        assert |path| == |dir| && (path + [SLASH])[..|dir| + 1] == dir + [SLASH];
        assert path == (path + [SLASH])[..|path|] && dir == (dir + [SLASH])[..|dir|];
      }
    }
    if rest :| path == dir + [SLASH] + rest {
      assert (path + [SLASH])[..|dir| + 1] == dir + [SLASH];
    }
  }

  /** Of the wanted tree, what lies in an excluded directory, or is one, is left out. */
  lemma WantedIs(name: seq<byte>, request: Request, dirs: seq<seq<byte>>, rel: seq<byte>)
    requires |request.excludes| == |dirs| && forall i :: 0 <= i < |dirs| ==> request.excludes[i] == dirs[i] + [SLASH]
    ensures Wanted(name, request) == Some(rel)
       <==> Relative(name, request.member) == Some(rel) && forall i :: 0 <= i < |dirs| ==> !Under(rel, dirs[i])
  {
    hide Relative, Under;
    forall i | 0 <= i < |dirs| ensures Under(rel, dirs[i]) <==> request.excludes[i] <= rel + [SLASH] {
      UnderIsPrefix(rel, dirs[i]);
    }
  }

  /** A link is left out if it is relative and leads to the top or to a directory it lies in. */
  lemma ToAncestorIs(rel: seq<byte>, link: seq<byte>, request: Request)
    ensures ToAncestor(rel, link, request) <==>
      && (link == [] || link[0] != SLASH)
      && (request.resolve(rel, link) == [DOT] || Under(rel, request.resolve(rel, link)))
  {
    hide Under;
    UnderIsPrefix(rel, request.resolve(rel, link));
  }

  /** What an entry with its data asks for, by what it is. */
  lemma EntryAsksFor(e: Entry, high: nat, format: nat, special: nat, permissions: nat, request: Request)
    requires format < 16 && special < 8 && permissions < 512 && e.mode == ModeOf(high, format, special, permissions)
    ensures var v, rel := Visited(Head(e.name, e.mode, |e.data|), e.data, request), Wanted(e.name, request);
      && (rel.None? ==> v.actions == [] && v.failure == None)
      && (rel.Some? && format == 4 ==> v.actions == [MakeDir(rel.value)] && v.failure == None)
      && (rel.Some? && format == 10 && ToAncestor(rel.value, e.data, request) ==> v.actions == [] && v.failure == None)
      && (rel.Some? && format == 10 && !ToAncestor(rel.value, e.data, request) ==> v.actions == [MakeLink(rel.value, e.data)] && v.failure == None)
      && (rel.Some? && format == 8 ==> v.actions == [WriteFile(rel.value, e.data), SetMode(rel.value, FileMode(permissions))] && v.failure == None)
      && (rel.Some? && format !in {4, 8, 10} ==> v.actions == [] && v.failure == Some(Unsupported(e.name)))
  {
    hide Wanted, ToAncestor, KindOf, ModeOf, Permissions;
    ModeReadsBack(high, format, special, permissions);
    SmallModes(permissions);
    assert e.data[..|e.data|] == e.data;
  }
}
