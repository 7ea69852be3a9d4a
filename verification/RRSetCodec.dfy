/** The text form in which a whole answer is kept in one cache row (data/lookup_index.go:17-71). */
module RRSetCodec {
  import opened Options
  import opened Search
  import opened Text

  /** A resource record: owner, type name, TTL, and the value text a single cache row would hold for it. */
  datatype RR = RR(name: string, rtype: string, ttl: nat, value: string)

  /** The DNS library, which is not part of this model: dns.NewRR and RR.String. */
  datatype Library = Library(newRR: string -> Option<RR>, text: RR -> string)

  const RRSET_PREFIX := "__RRSET_v1__\n"

  predicate IsRRSet(value: string) {
    HasPrefix(value, RRSET_PREFIX)
  }

  // ---- What the loops below compute ----

  function Lines(lib: Library, rrs: seq<RR>): string {
    if rrs == [] then "" else lib.text(rrs[0]) + "\n" + Lines(lib, rrs[1..])
  }

  function Encode(lib: Library, rrs: seq<RR>): string {
    RRSET_PREFIX + Lines(lib, rrs)
  }

  /** Parses each non-blank line; one bad line spoils the whole. */
  function ParseLines(lib: Library, ls: seq<string>): Option<seq<RR>> {
    if ls == [] then Some([])
    else if TrimSpace(ls[0]) == "" then ParseLines(lib, ls[1..])
    else
      match lib.newRR(TrimSpace(ls[0]))
      case None => None
      case Some(rr) =>
        match ParseLines(lib, ls[1..])
        case None => None
        case Some(rest) => Some([rr] + rest)
  }

  function Decode(lib: Library, v: string): Option<seq<RR>> {
    if !IsRRSet(v) then None
    else
      var body := TrimSpace(v[|RRSET_PREFIX|..]);
      if body == "" then None
      else
        match ParseLines(lib, Split(body, '\n'))
        case None => None
        case Some(rrs) => if rrs == [] then None else Some(rrs)
  }

  function ClipTTL(rr: RR, remaining: nat, stale: bool): RR {
    var t := if stale then 1 else if remaining < rr.ttl then remaining else rr.ttl;
    rr.(ttl := if t == 0 then 1 else t)
  }

  function Clip(rrs: seq<RR>, remaining: nat, stale: bool): (out: seq<RR>)
    ensures |out| == |rrs|
  {
    seq(|rrs|, i requires 0 <= i < |rrs| => ClipTTL(rrs[i], remaining, stale))
  }

  // ---- The source's loops ----

  method BuildRRSetCacheValue(lib: Library, rrs: seq<RR>) returns (v: string)
    ensures v == Encode(lib, rrs)
  {
    v := RRSET_PREFIX;
    for i := 0 to |rrs|
      invariant v + Lines(lib, rrs[i..]) == Encode(lib, rrs)
    {
      assert rrs[i..][1..] == rrs[i + 1..];
      v := v + lib.text(rrs[i]);
      v := v + "\n";
    }
  }

  /** The records parsed so far followed by those of the remaining lines. */
  function Onto(done: seq<RR>, rest: Option<seq<RR>>): Option<seq<RR>> {
    match rest
    case None => None
    case Some(rrs) => Some(done + rrs)
  }

  method ParseRRSetCacheValue(lib: Library, v: string) returns (r: Option<seq<RR>>)
    ensures r == Decode(lib, v)
  {
    if !HasPrefix(v, RRSET_PREFIX) {
      return None;
    }
    var body := TrimSpace(v[|RRSET_PREFIX|..]);
    if body == "" {
      return None;
    }
    var lines := Split(body, '\n');
    var out := [];
    ghost var all := ParseLines(lib, lines);
    assert lines[0..] == lines && (all.Some? ==> [] + all.value == all.value);
    for i := 0 to |lines|
      invariant ParseLines(lib, lines) == Onto(out, ParseLines(lib, lines[i..]))
    {
      assert lines[i..][1..] == lines[i + 1..];
      ghost var rest := ParseLines(lib, lines[i + 1..]);
      assert rest.Some? ==> forall rr :: out + ([rr] + rest.value) == out + [rr] + rest.value;
      var line := TrimSpace(lines[i]);
      if line != "" {
        match lib.newRR(line) {
          case None => return None;
          case Some(rr) => out := out + [rr];
        }
      }
    }
    assert out + [] == out;
    return if |out| > 0 then Some(out) else None;
  }

  method ClipRRSetTTLs(rrs: seq<RR>, remainingSec: nat, stale: bool) returns (out: seq<RR>)
    ensures out == Clip(rrs, remainingSec, stale)
  {
    out := [];
    for i := 0 to |rrs|
      invariant out == Clip(rrs, remainingSec, stale)[..i]
    {
      var cp := rrs[i];
      if stale {
        cp := cp.(ttl := 1);
      } else if remainingSec < cp.ttl {
        cp := cp.(ttl := remainingSec);
      }
      if cp.ttl == 0 {
        cp := cp.(ttl := 1);
      }
      out := out + [cp];
    }
  }

  // ---- Round trip ----

  /** What is needed of the library: the record's text has no newline, is not blank, and parses back to it. */
  predicate Printable(lib: Library, rr: RR) {
    '\n' !in lib.text(rr) && TrimSpace(lib.text(rr)) != "" && lib.newRR(TrimSpace(lib.text(rr))) == Some(rr)
  }

  lemma {:induction false} SplitLine(line: string, rest: string)
    requires '\n' !in line
    ensures Split(line + "\n" + rest, '\n') == [line] + Split(rest, '\n')
  {
    if line == "" {
      assert (line + "\n" + rest)[1..] == rest;
    } else {
      SplitLine(line[1..], rest);
      assert (line + "\n" + rest)[1..] == line[1..] + "\n" + rest;
      assert [line[0]] + line[1..] == line;
    }
  }

  lemma {:induction false} LinesParse(lib: Library, rrs: seq<RR>)
    requires forall rr <- rrs :: Printable(lib, rr)
    ensures ParseLines(lib, Split(Lines(lib, rrs), '\n')) == Some(rrs)
  {
    if rrs != [] {
      var t, rest := lib.text(rrs[0]), Lines(lib, rrs[1..]);
      assert Printable(lib, rrs[0]);
      SplitLine(t, rest);
      LinesParse(lib, rrs[1..]);
      assert ([t] + Split(rest, '\n'))[1..] == Split(rest, '\n');
      assert [rrs[0]] + rrs[1..] == rrs;
    }
  }

  function Texts(lib: Library, rrs: seq<RR>): seq<string> {
    seq(|rrs|, i requires 0 <= i < |rrs| => lib.text(rrs[i]))
  }

  lemma TextsFront(lib: Library, rrs: seq<RR>)
    requires rrs != []
    ensures Texts(lib, rrs) == [lib.text(rrs[0])] + Texts(lib, rrs[1..])
  {
  }

  lemma {:induction false} LinesOf(lib: Library, rrs: seq<RR>)
    requires forall rr <- rrs :: '\n' !in lib.text(rr)
    ensures Split(Lines(lib, rrs), '\n') == Texts(lib, rrs) + [""]
  {
    if rrs != [] {
      LinesOf(lib, rrs[1..]);
      TextsFront(lib, rrs);
      LineFront(lib.text(rrs[0]), Lines(lib, rrs[1..]), Texts(lib, rrs[1..]));
    }
  }

  lemma LineFront(line: string, rest: string, texts: seq<string>)
    requires '\n' !in line && Split(rest, '\n') == texts + [""]
    ensures Split(line + "\n" + rest, '\n') == [line] + texts + [""]
  {
    SplitLine(line, rest);
    assert [line] + (texts + [""]) == [line] + texts + [""];
  }

  /** The stored text: a marker line, then one line for each record, each ended by a line break. */
  lemma EncodedLines(lib: Library, rrs: seq<RR>)
    requires forall rr <- rrs :: '\n' !in lib.text(rr)
    ensures Split(Encode(lib, rrs), '\n') ==
            ["__RRSET_v1__"] + seq(|rrs|, i requires 0 <= i < |rrs| => lib.text(rrs[i])) + [""]
  {
    LinesOf(lib, rrs);
    assert RRSET_PREFIX == "__RRSET_v1__" + "\n";
    LineFront("__RRSET_v1__", Lines(lib, rrs), Texts(lib, rrs));
  }

  // Trimming the encoded body changes no line that matters.

  lemma TrimAppendSpace(l: string, c: char)
    requires IsSpace(c)
    ensures TrimSpace(l + [c]) == TrimSpace(l)
  {
    TrimLeftAppend(l, c);
    assert TrimLeft(l) != "" ==> (TrimLeft(l) + [c])[..|TrimLeft(l)|] == TrimLeft(l);
  }

  lemma {:induction false} TrimLeftAppend(l: string, c: char)
    requires IsSpace(c)
    ensures TrimLeft(l + [c]) == if TrimLeft(l) == "" then "" else TrimLeft(l) + [c]
  {
    if l != "" {
      assert (l + [c])[1..] == l[1..] + [c];
      TrimLeftAppend(l[1..], c);
    } else {
      assert (l + [c])[1..] == "";
    }
  }

  /** What one more character does to the list of lines. */
  function Extend(ls: seq<string>, c: char): seq<string>
    requires |ls| > 0
  {
    if c == '\n' then ls + [""] else ls[..|ls| - 1] + [ls[|ls| - 1] + [c]]
  }

  lemma ExtendCons(l: string, ls: seq<string>, c: char)
    requires |ls| > 0
    ensures Extend([l] + ls, c) == [l] + Extend(ls, c)
  {
  }

  lemma ExtendGlue(x: char, ls: seq<string>, c: char)
    requires |ls| > 0
    ensures Extend([[x] + ls[0]] + ls[1..], c) == [[x] + Extend(ls, c)[0]] + Extend(ls, c)[1..]
  {
    if |ls| == 1 {
      assert [x] + ls[0] + [c] == [x] + (ls[0] + [c]);
    }
  }

  lemma {:induction false} SplitAppend(s: string, c: char)
    ensures Split(s + [c], '\n') == Extend(Split(s, '\n'), c)
  {
    if s == "" {
      assert (s + [c])[1..] == "" && [c] + "" == "" + [c];
    } else {
      SplitAppend(s[1..], c);
      assert (s + [c])[1..] == s[1..] + [c];
      if s[0] == '\n' {
        ExtendCons("", Split(s[1..], '\n'), c);
      } else {
        ExtendGlue(s[0], Split(s[1..], '\n'), c);
      }
    }
  }

  lemma {:induction false} ParseLast(lib: Library, ls: seq<string>, a: string, b: string)
    requires TrimSpace(a) == TrimSpace(b)
    ensures ParseLines(lib, ls + [a]) == ParseLines(lib, ls + [b])
    ensures TrimSpace(a) == "" ==> ParseLines(lib, ls + [a]) == ParseLines(lib, ls)
  {
    if ls == [] {
      assert (ls + [a])[1..] == [] && (ls + [b])[1..] == [];
    } else {
      assert (ls + [a])[1..] == ls[1..] + [a] && (ls + [b])[1..] == ls[1..] + [b];
      ParseLast(lib, ls[1..], a, b);
    }
  }

  lemma {:induction false} DropLeadingSpace(lib: Library, s: string)
    ensures ParseLines(lib, Split(TrimLeft(s), '\n')) == ParseLines(lib, Split(s, '\n'))
  {
    if s != "" && IsSpace(s[0]) {
      DropLeadingSpace(lib, s[1..]);
      var ls := Split(s[1..], '\n');
      if s[0] == '\n' {
        assert Split(s, '\n')[1..] == ls;
      } else {
        assert Split(s, '\n')[1..] == ls[1..] && ([s[0]] + ls[0])[1..] == ls[0];
      }
    }
  }

  lemma ExtendBySpace(lib: Library, ls: seq<string>, c: char)
    requires |ls| > 0 && IsSpace(c)
    ensures ParseLines(lib, Extend(ls, c)) == ParseLines(lib, ls)
  {
    var n := |ls| - 1;
    assert ls == ls[..n] + [ls[n]];
    TrimAppendSpace(ls[n], c);
    ParseLast(lib, ls[..n], ls[n], ls[n] + [c]);
    ParseLast(lib, ls, "", "");
  }

  lemma {:induction false} DropTrailingSpace(lib: Library, s: string)
    ensures ParseLines(lib, Split(TrimRight(s), '\n')) == ParseLines(lib, Split(s, '\n'))
  {
    if s != "" && IsSpace(s[|s| - 1]) {
      var t, c := s[..|s| - 1], s[|s| - 1];
      assert t + [c] == s;
      DropTrailingSpace(lib, t);
      SplitAppend(t, c);
      ExtendBySpace(lib, Split(t, '\n'), c);
    }
  }

  /** Encoding a non-empty answer and decoding it gives back the same records in order. */
  lemma RoundTrip(lib: Library, rrs: seq<RR>)
    requires forall rr <- rrs :: Printable(lib, rr)
    ensures Decode(lib, Encode(lib, rrs)) == if rrs == [] then None else Some(rrs)
  {
    var body := Lines(lib, rrs);
    assert Encode(lib, rrs)[..|RRSET_PREFIX|] == RRSET_PREFIX && Encode(lib, rrs)[|RRSET_PREFIX|..] == body;
    LinesParse(lib, rrs);
    DropLeadingSpace(lib, body);
    DropTrailingSpace(lib, TrimLeft(body));
  }

  // ---- What decoding gives ----

  /** The line, trimmed, is one that the library parses to `rr`. */
  function Gives(lib: Library): (string, RR) -> bool {
    (line: string, rr: RR) => TrimSpace(line) != "" && lib.newRR(TrimSpace(line)) == Some(rr)
  }

  function Blank(): string -> bool {
    (line: string) => TrimSpace(line) == ""
  }

  predicate Bad(lib: Library, line: string) {
    TrimSpace(line) != "" && lib.newRR(TrimSpace(line)) == None
  }

  lemma BadLines(lib: Library, ls: seq<string>)
    requires ls != []
    ensures (exists line <- ls :: Bad(lib, line)) <==> Bad(lib, ls[0]) || exists line <- ls[1..] :: Bad(lib, line)
  {
    assert ls == [ls[0]] + ls[1..];
  }

  /** One bad line spoils the whole; otherwise the records are those of the lines that are not blank, in order. */
  lemma {:induction false} ParsedLines(lib: Library, ls: seq<string>) returns (from: seq<nat>)
    ensures ParseLines(lib, ls) == None <==> exists line <- ls :: Bad(lib, line)
    ensures ParseLines(lib, ls).Some? ==> Gathers(ls, Gives(lib), Blank(), ParseLines(lib, ls).value, from)
  {
    from := [];
    if ls != [] {
      var rest := ParsedLines(lib, ls[1..]);
      BadLines(lib, ls);
      assert ls == [ls[0]] + ls[1..];
      if ParseLines(lib, ls).Some? {
        var rrs := ParseLines(lib, ls[1..]).value;
        if TrimSpace(ls[0]) == "" {
          GathersFrontSkip(ls[1..], Gives(lib), Blank(), rrs, rest, ls[0]);
          from := Later(rest);
        } else {
          GathersFrontTake(ls[1..], Gives(lib), Blank(), rrs, rest, ls[0], lib.newRR(TrimSpace(ls[0])).value);
          from := [0] + Later(rest);
        }
      }
    }
  }

  /** A cached value decodes exactly if it has the marker, its other lines hold a record and none of them is bad. */
  lemma DecodeMeaning(lib: Library, v: string)
    ensures Decode(lib, v) == None <==>
            || !HasPrefix(v, "__RRSET_v1__\n") || TrimSpace(v[13..]) == ""
            || (exists line <- Split(TrimSpace(v[13..]), '\n') :: Bad(lib, line))
            || (forall line <- Split(TrimSpace(v[13..]), '\n') :: TrimSpace(line) == "")
    ensures Decode(lib, v).Some? ==>
              exists from :: Gathers(Split(TrimSpace(v[13..]), '\n'), Gives(lib), Blank(), Decode(lib, v).value, from)
  {
    assert RRSET_PREFIX == "__RRSET_v1__\n" && |RRSET_PREFIX| == 13;
    if HasPrefix(v, RRSET_PREFIX) {
      var ls := Split(TrimSpace(v[13..]), '\n');
      var from := ParsedLines(lib, ls);
      if ParseLines(lib, ls).Some? {
        NoneGathered(lib, ls, ParseLines(lib, ls).value, from);
      }
    }
  }

  lemma NoneGathered(lib: Library, ls: seq<string>, rrs: seq<RR>, from: seq<nat>)
    requires Gathers(ls, Gives(lib), Blank(), rrs, from)
    ensures rrs == [] <==> forall line <- ls :: TrimSpace(line) == ""
  {
    if rrs != [] {
      assert Gives(lib)(ls[from[0]], rrs[0]) && ls[from[0]] in ls;
    } else {
      assert forall i :: 0 <= i < |ls| ==> Blank()(ls[i]);
    }
  }
}
