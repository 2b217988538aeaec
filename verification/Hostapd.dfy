/** `parse_hostapd`: the passphrase of each SSID in a hostapd configuration. */
module Hostapd {

  const BSS := "bss="
  const SSID := "ssid="
  const PASSPHRASE := "wpa_passphrase="

  predicate StartsWith(line: string, prefix: string)
  {
    prefix <= line
  }

  /** `line.split("=", 1)[1]`, for a line that starts with a prefix ending in "=". */
  function Value(line: string, prefix: string): string
    requires StartsWith(line, prefix)
  {
    line[|prefix|..]
  }

  /** Everything after the prefix is the value, any further "=" included. */
  lemma ValueExact(prefix: string, v: string)
    ensures StartsWith(prefix + v, prefix) && Value(prefix + v, prefix) == v
  {
    assert (prefix + v)[..|prefix|] == prefix && (prefix + v)[|prefix|..] == v;
  }

  // ---------------------------------------------------------- lines of a text

  /** The characters that end a line for splitlines. */
  predicate IsBreak(c: char)
  {
    c in "\n\r\U{0B}\U{0C}\U{1C}\U{1D}\U{1E}\U{85}\U{2028}\U{2029}"
  }

  /** The characters that strip takes off. */
  predicate IsSpace(c: char)
  {
    IsBreak(c) || c in "\t \U{1F}\U{A0}\U{1680}\U{202F}\U{205F}\U{3000}" || '\U{2000}' <= c <= '\U{200A}'
  }

  function LineEnd(text: string): (e: nat)
    ensures e <= |text| && (e < |text| ==> IsBreak(text[e]))
    ensures forall i :: 0 <= i < e ==> !IsBreak(text[i])
  {
    if text == "" || IsBreak(text[0]) then 0 else 1 + LineEnd(text[1..])
  }

  /** `splitlines` */
  function SplitLines(text: string): seq<string>
    decreases |text|
  {
    var e := LineEnd(text);
    if text == "" then []
    else if e == |text| then [text]
    else if text[e] == '\r' && e + 1 < |text| && text[e + 1] == '\n' then [text[..e]] + SplitLines(text[e + 2..])
    else [text[..e]] + SplitLines(text[e + 1..])
  }

  predicate Unbroken(line: string)
  {
    forall i :: 0 <= i < |line| ==> !IsBreak(line[i])
  }

  function Lines(lines: seq<string>): string
  {
    if lines == [] then "" else lines[0] + "\n" + Lines(lines[1..])
  }

  /** Lines that are written one after the other are read back as they are. */
  lemma {:induction false} SplitLinesExact(lines: seq<string>)
    requires forall k :: 0 <= k < |lines| ==> Unbroken(lines[k])
    ensures SplitLines(Lines(lines)) == lines
  {
    if lines != [] {
      var text, n := Lines(lines), |lines[0]|;
      SplitLinesExact(lines[1..]);
      LineEndIs(lines[0], Lines(lines[1..]));
      assert text == lines[0] + "\n" + Lines(lines[1..]);
      assert text[..n] == lines[0] && text[n] == '\n' && text[n + 1..] == Lines(lines[1..]);
    }
  }

  lemma {:induction false} SplitUnbroken(text: string)
    ensures forall l :: l in SplitLines(text) ==> Unbroken(l)
    decreases |text|
  {
    var e := LineEnd(text);
    if e < |text| {
      var rest := if text[e] == '\r' && e + 1 < |text| && text[e + 1] == '\n' then text[e + 2..] else text[e + 1..];
      SplitUnbroken(rest);
      assert SplitLines(text) == [text[..e]] + SplitLines(rest);
    }
  }

  lemma LineEndIs(line: string, rest: string)
    requires Unbroken(line)
    ensures LineEnd(line + "\n" + rest) == |line|
  {
    var text := line + "\n" + rest;
    assert text[|line|] == '\n';
    assert forall i :: 0 <= i < |line| ==> text[i] == line[i];
  }

  /** "\r\n" ends a line, and so does every single character that splitlines knows, a
      "\r" only where no "\n" follows it. */
  lemma SplitAtEnd(line: string, end: string, rest: string)
    requires Unbroken(line)
    requires end in ["\n", "\r\n", "\r", "\U{0B}", "\U{0C}", "\U{1C}", "\U{1D}", "\U{1E}", "\U{85}", "\U{2028}", "\U{2029}"]
    requires end == "\r" ==> !("\n" <= rest)
    ensures SplitLines(line + end + rest) == [line] + SplitLines(rest)
  {
    var text := line + end + rest;
    assert text[|line|] == end[0] && IsBreak(end[0]);
    assert forall i :: 0 <= i < |line| ==> text[i] == line[i];
    assert LineEnd(text) == |line|;
    assert text[..|line|] == line && text[|line| + |end|..] == rest;
    if end == "\r" && rest != "" {
      assert text[|line| + 1] == rest[0] && "\n" == ['\n'];
    }
  }

  function StripLeft(s: string): (r: string)
  {
    if s != "" && IsSpace(s[0]) then StripLeft(s[1..]) else s
  }

  function StripRight(s: string): (r: string)
  {
    if s != "" && IsSpace(s[|s| - 1]) then StripRight(s[..|s| - 1]) else s
  }

  /** `strip` */
  function Strip(s: string): string { StripRight(StripLeft(s)) }

  predicate AllSpace(s: string)
  {
    forall i :: 0 <= i < |s| ==> IsSpace(s[i])
  }

  predicate Trim(s: string)
  {
    s != "" ==> !IsSpace(s[0]) && !IsSpace(s[|s| - 1])
  }

  lemma {:induction false} StripLeftExact(left: string, rest: string)
    requires AllSpace(left) && (rest != "" ==> !IsSpace(rest[0]))
    ensures StripLeft(left + rest) == rest
    decreases |left|
  {
    if left == "" {
      assert left + rest == rest;
    } else {
      assert (left + rest)[1..] == left[1..] + rest;
      StripLeftExact(left[1..], rest);
    }
  }

  /** Whatever whitespace surrounds a line, strip takes off all of it and no more. */
  lemma StripExact(left: string, core: string, right: string)
    requires AllSpace(left) && AllSpace(right) && Trim(core)
    ensures Strip(left + core + right) == core
  {
    if core == "" {
      assert left + core + right == left + right + "";
      StripLeftExact(left + right, "");
    } else {
      assert left + core + right == left + (core + right);
      StripLeftExact(left, core + right);
      StripRightExact(core, right);
    }
  }

  lemma {:induction false} StripRightExact(core: string, right: string)
    requires AllSpace(right) && Trim(core) && core != ""
    ensures StripRight(core + right) == core
    decreases |right|
  {
    var s, n := core + right, |right|;
    if right == "" {
      assert s == core;
    } else {
      assert s[|s| - 1] == right[n - 1] && s[..|s| - 1] == core + right[..n - 1];
      StripRightExact(core, right[..n - 1]);
    }
  }

  /** The lines of a text as the parser looks at them. */
  function Stripped(raw: seq<string>): (r: seq<string>)
    ensures |r| == |raw|
  {
    seq(|raw|, i requires 0 <= i < |raw| => Strip(raw[i]))
  }

  // -------------------------------------------------- what the answer must be

  /** The lines cut at each bss= line. The first section is the main one. */
  function Sections(lines: seq<string>): (r: seq<seq<string>>)
    ensures |r| >= 1
  {
    if lines == [] then [[]]
    else
      var n := |lines| - 1;
      var before := Sections(lines[..n]);
      if StartsWith(lines[n], BSS) then before + [[]]
      else before[|before| - 1 := before[|before| - 1] + [lines[n]]]
  }

  /** The value of a section's last line with the prefix, or "". */
  function LastValue(section: seq<string>, prefix: string): string
  {
    if section == [] then ""
    else if StartsWith(section[|section| - 1], prefix) then Value(section[|section| - 1], prefix)
    else LastValue(section[..|section| - 1], prefix)
  }

  /** By position: a section's last line with the prefix is the prefix and the value. */
  lemma {:induction false} LastValueAt(section: seq<string>, prefix: string)
    ensures forall i :: 0 <= i < |section| && prefix <= section[i]
                        && (forall j :: i < j < |section| ==> !(prefix <= section[j]))
              ==> section[i] == prefix + LastValue(section, prefix)
    ensures (forall i :: 0 <= i < |section| ==> !(prefix <= section[i])) ==> LastValue(section, prefix) == ""
  {
    if section != [] {
      var n := |section| - 1;
      LastValueAt(section[..n], prefix);
      if prefix <= section[n] {
        assert section[n] == prefix + section[n][|prefix|..];
      } else {
        forall i | 0 <= i < |section| && prefix <= section[i] && (forall j :: i < j < |section| ==> !(prefix <= section[j]))
          ensures section[i] == prefix + LastValue(section, prefix)
        {
          assert section[..n][i] == section[i];
        }
      }
    }
  }

  predicate Contributes(section: seq<string>)
  {
    LastValue(section, SSID) != "" && LastValue(section, PASSPHRASE) != ""
  }

  /** Sections with both values add their pair; a later section replaces an earlier one. */
  function Collect(sections: seq<seq<string>>): map<string, string>
  {
    if sections == [] then map[]
    else
      var n := |sections| - 1;
      var section := sections[n];
      if Contributes(section)
      then Collect(sections[..n])[LastValue(section, SSID) := LastValue(section, PASSPHRASE)]
      else Collect(sections[..n])
  }

  /** Section i gives the answer for an SSID: it is the last one to contribute it. */
  ghost predicate Decides(sections: seq<seq<string>>, i: nat, ssid: string)
  {
    && i < |sections| && Contributes(sections[i]) && LastValue(sections[i], SSID) == ssid
    && forall j :: i < j < |sections| && Contributes(sections[j]) ==> LastValue(sections[j], SSID) != ssid
  }

  /** Every pair comes from one section, the last that names the SSID, so no
      passphrase crosses a section boundary; and every such section is heard. */
  lemma {:induction false} CollectExact(sections: seq<seq<string>>, ssid: string)
    ensures ssid in Collect(sections) ==> exists i :: Decides(sections, i, ssid)
    ensures forall i: nat :: Decides(sections, i, ssid) ==>
      ssid in Collect(sections) && Collect(sections)[ssid] == LastValue(sections[i], PASSPHRASE)
  {
    if sections != [] {
      var n := |sections| - 1;
      var front := sections[..n];
      CollectExact(front, ssid);
      if Contributes(sections[n]) && LastValue(sections[n], SSID) == ssid {
        assert Decides(sections, n, ssid);
        forall i: nat | Decides(sections, i, ssid)
          ensures i == n
        {
        }
      } else {
        forall i: nat
          ensures Decides(sections, i, ssid) <==> Decides(front, i, ssid)
        {
          if Decides(front, i, ssid) {
            assert forall j :: i < j < n ==> sections[j] == front[j];
          }
        }
      }
    }
  }

  // --------------------------------------------------------------- the parser

  /** `parse_hostapd`; "" stands for an unset value too, since both are falsy. */
  method ParseHostapd(text: string) returns (out: map<string, string>)
    ensures out == Collect(Sections(Stripped(SplitLines(text))))
  {
    var raw := SplitLines(text);
    ghost var lines := Stripped(raw);
    out := map[];
    var ssid, pw := "", "";
    for n := 0 to |raw|
      invariant out == Collect(Front(Sections(lines[..n])))
      invariant ssid == LastValue(Open(Sections(lines[..n])), SSID)
      invariant pw == LastValue(Open(Sections(lines[..n])), PASSPHRASE)
    {
      var line := Strip(raw[n]);
      SectionsStep(lines, n);
      if StartsWith(line, BSS) {
        if ssid != "" && pw != "" {
          out := out[ssid := pw];
        }
        ssid, pw := "", "";
      } else if StartsWith(line, SSID) {
        ssid := Value(line, SSID);
        PrefixesDiffer(line);
      } else if StartsWith(line, PASSPHRASE) {
        pw := Value(line, PASSPHRASE);
      }
    }
    assert lines[..|lines|] == lines;
    if ssid != "" && pw != "" {
      out := out[ssid := pw];
    }
  }

  function Front(sections: seq<seq<string>>): seq<seq<string>>
    requires sections != []
  {
    sections[..|sections| - 1]
  }

  function Open(sections: seq<seq<string>>): seq<string>
    requires sections != []
  {
    sections[|sections| - 1]
  }

  lemma SectionsStep(lines: seq<string>, n: nat)
    requires n < |lines|
    ensures var before, after := Sections(lines[..n]), Sections(lines[..n + 1]);
      if StartsWith(lines[n], BSS) then Front(after) == before && Open(after) == []
      else Front(after) == Front(before) && Open(after) == Open(before) + [lines[n]]
  {
    assert lines[..n + 1][..n] == lines[..n] && lines[..n + 1][n] == lines[n];
  }

  lemma PrefixesDiffer(line: string)
    ensures !(StartsWith(line, SSID) && StartsWith(line, PASSPHRASE))
  {
    assert StartsWith(line, SSID) ==> line[0] == 's';
    assert StartsWith(line, PASSPHRASE) ==> line[0] == 'w';
  }

  // ------------------------------------------------ a configuration read back

  /** A section as it is written: its two values and the lines around them. `bss` is what
      its first line names, which the main section does not have. */
  datatype Block = Block(bss: string, ssid: string, pass: string, passFirst: bool,
                         before: seq<string>, between: seq<string>, after: seq<string>)

  /** A line that says nothing to the parser. */
  predicate Idle(line: string)
  {
    Trim(line) && !("bss=" <= line) && !("ssid=" <= line) && !("wpa_passphrase=" <= line)
  }

  predicate AllIdle(lines: seq<string>)
  {
    forall i :: 0 <= i < |lines| ==> Idle(lines[i])
  }

  predicate Writable(b: Block)
  {
    && b.ssid != "" && b.pass != "" && AllIdle(b.before) && AllIdle(b.between) && AllIdle(b.after)
    && Trim("ssid=" + b.ssid) && Trim("wpa_passphrase=" + b.pass) && Trim("bss=" + b.bss)
  }

  function Body(b: Block): seq<string>
  {
    var ssid, pass := "ssid=" + b.ssid, "wpa_passphrase=" + b.pass;
    b.before + [if b.passFirst then pass else ssid] + b.between + [if b.passFirst then ssid else pass] + b.after
  }

  /** The main section, and then each other one after its bss= line. */
  function Written(blocks: seq<Block>): seq<string>
  {
    if blocks == [] then []
    else
      var n := |blocks| - 1;
      Written(blocks[..n]) + (if n > 0 then ["bss=" + blocks[n].bss] else []) + Body(blocks[n])
  }

  function Bodies(blocks: seq<Block>): (r: seq<seq<string>>)
    ensures |r| == |blocks|
  {
    seq(|blocks|, i requires 0 <= i < |blocks| => Body(blocks[i]))
  }

  /** Blanks and tabs around a line. */
  ghost predicate Padded(raw: string, line: string)
  {
    exists left: string, right: string :: raw == left + line + right
      && forall c :: c in left + right ==> c == ' ' || c == '\t'
  }

  lemma {:induction false} SectionsOpen(lines: seq<string>, body: seq<string>)
    requires forall i :: 0 <= i < |body| ==> !StartsWith(body[i], BSS)
    ensures var s := Sections(lines); Sections(lines + body) == Front(s) + [Open(s) + body]
    decreases |body|
  {
    var s := Sections(lines);
    if body == [] {
      assert lines + body == lines && Open(s) + body == Open(s) && s == Front(s) + [Open(s)];
    } else {
      var n := |body| - 1;
      SectionsOpen(lines, body[..n]);
      assert (lines + body)[..|lines + body| - 1] == lines + body[..n];
      assert (Open(s) + body[..n]) + [body[n]] == Open(s) + body;
    }
  }

  lemma SectionsNamed(lines: seq<string>, bss: string)
    ensures Sections(lines + ["bss=" + bss]) == Sections(lines) + [[]]
  {
    ValueExact(BSS, bss);
    assert (lines + ["bss=" + bss])[..|lines|] == lines;
  }

  lemma BodyLine(b: Block, i: nat)
    requires Writable(b) && i < |Body(b)|
    ensures var first, second := |b.before|, |b.before| + 1 + |b.between|;
      var ssid, pass := if b.passFirst then second else first, if b.passFirst then first else second;
      if i == ssid then Body(b)[i] == "ssid=" + b.ssid
      else if i == pass then Body(b)[i] == "wpa_passphrase=" + b.pass
      else Idle(Body(b)[i])
  {
  }

  /** What a body holds for the parser. */
  lemma BodyValues(b: Block)
    requires Writable(b)
    ensures forall i :: 0 <= i < |Body(b)| ==> Trim(Body(b)[i]) && !StartsWith(Body(b)[i], BSS)
    ensures LastValue(Body(b), SSID) == b.ssid && LastValue(Body(b), PASSPHRASE) == b.pass
  {
    var body := Body(b);
    var first, second := |b.before|, |b.before| + 1 + |b.between|;
    var ssid, pass := if b.passFirst then second else first, if b.passFirst then first else second;
    forall i | 0 <= i < |body|
      ensures Trim(body[i]) && !StartsWith(body[i], BSS)
      ensures SSID <= body[i] <==> i == ssid
      ensures PASSPHRASE <= body[i] <==> i == pass
    {
      BodyLine(b, i);
      assert SSID[0] == 's' && PASSPHRASE[0] == 'w' && BSS[0] == 'b';
      assert i == ssid ==> body[i][0] == 's';
      assert i == pass ==> body[i][0] == 'w';
    }
    BodyLine(b, ssid);
    BodyLine(b, pass);
    LastValueAt(body, SSID);
    LastValueAt(body, PASSPHRASE);
    ValueExact(SSID, b.ssid);
    ValueExact(PASSPHRASE, b.pass);
    assert body[ssid] == SSID + LastValue(body, SSID) == SSID + b.ssid;
    assert body[pass] == PASSPHRASE + LastValue(body, PASSPHRASE) == PASSPHRASE + b.pass;
    ValueExact(SSID, LastValue(body, SSID));
    ValueExact(PASSPHRASE, LastValue(body, PASSPHRASE));
  }

  lemma {:induction false} WrittenTrim(blocks: seq<Block>)
    requires forall i :: 0 <= i < |blocks| ==> Writable(blocks[i])
    ensures forall line :: line in Written(blocks) ==> Trim(line)
  {
    if blocks != [] {
      WrittenTrim(blocks[..|blocks| - 1]);
      BodyValues(blocks[|blocks| - 1]);
    }
  }

  lemma BodiesStep(blocks: seq<Block>, n: nat)
    requires |blocks| == n + 1
    ensures Bodies(blocks) == Bodies(blocks[..n]) + [Body(blocks[n])]
  {
    forall i | 0 <= i < n
      ensures Bodies(blocks)[i] == Bodies(blocks[..n])[i]
    {
    }
  }

  /** One more section's body after its bss= line. */
  lemma SectionAdded(lines: seq<string>, bss: string, body: seq<string>)
    requires forall i :: 0 <= i < |body| ==> !StartsWith(body[i], BSS)
    ensures Sections(lines + ["bss=" + bss] + body) == Sections(lines) + [body]
  {
    SectionsNamed(lines, bss);
    SectionsOpen(lines + ["bss=" + bss], body);
    assert [] + body == body;
  }

  lemma {:induction false} WrittenSections(blocks: seq<Block>)
    requires blocks != [] && forall i :: 0 <= i < |blocks| ==> Writable(blocks[i])
    ensures Sections(Written(blocks)) == Bodies(blocks)
  {
    var n := |blocks| - 1;
    BodyValues(blocks[n]);
    BodiesStep(blocks, n);
    if n == 0 {
      SectionsOpen([], Body(blocks[0]));
      assert Written(blocks) == [] + Body(blocks[0]);
      assert [] + Body(blocks[0]) == Body(blocks[0]);
    } else {
      WrittenSections(blocks[..n]);
      SectionAdded(Written(blocks[..n]), blocks[n].bss, Body(blocks[n]));
    }
  }

  lemma PaddedStrips(raw: string, line: string)
    requires Trim(line) && Padded(raw, line)
    ensures Strip(raw) == line
  {
    var left: string, right: string :| raw == left + line + right && forall c :: c in left + right ==> c == ' ' || c == '\t';
    forall i | 0 <= i < |left|
      ensures IsSpace(left[i])
    {
      assert left[i] in left + right;
    }
    forall i | 0 <= i < |right|
      ensures IsSpace(right[i])
    {
      assert right[i] in left + right;
    }
    StripExact(left, line, right);
  }

  /** Later sections replace earlier ones, and nothing else is in the answer. */
  ghost predicate Pairs(blocks: seq<Block>, out: map<string, string>)
  {
    && (forall s :: s in out ==> exists i :: 0 <= i < |blocks| && blocks[i].ssid == s)
    && forall i :: 0 <= i < |blocks| && (forall j :: i < j < |blocks| ==> blocks[j].ssid != blocks[i].ssid) ==>
         blocks[i].ssid in out && out[blocks[i].ssid] == blocks[i].pass
  }

  lemma WrittenPairs(blocks: seq<Block>)
    requires forall i :: 0 <= i < |blocks| ==> Writable(blocks[i])
    ensures Pairs(blocks, Collect(Bodies(blocks)))
  {
    var sections := Bodies(blocks);
    forall i | 0 <= i < |blocks|
      ensures LastValue(sections[i], SSID) == blocks[i].ssid && LastValue(sections[i], PASSPHRASE) == blocks[i].pass
    {
      BodyValues(blocks[i]);
    }
    forall s | s in Collect(sections)
      ensures exists i :: 0 <= i < |blocks| && blocks[i].ssid == s
    {
      CollectExact(sections, s);
      var i :| Decides(sections, i, s);
    }
    forall i | 0 <= i < |blocks| && (forall j :: i < j < |blocks| ==> blocks[j].ssid != blocks[i].ssid)
      ensures blocks[i].ssid in Collect(sections) && Collect(sections)[blocks[i].ssid] == blocks[i].pass
    {
      CollectExact(sections, blocks[i].ssid);
      assert Decides(sections, i, blocks[i].ssid);
    }
  }

  /** A configuration written from sections, its lines indented or not, is read back as
      exactly the pairs that were written. */
  method ParseWritten(blocks: seq<Block>, raw: seq<string>) returns (out: map<string, string>)
    requires forall i :: 0 <= i < |blocks| ==> Writable(blocks[i])
    requires |raw| == |Written(blocks)|
    requires forall i :: 0 <= i < |raw| ==> Unbroken(raw[i]) && Padded(raw[i], Written(blocks)[i])
    ensures Pairs(blocks, out)
  {
    out := ParseHostapd(Lines(raw));
    SplitLinesExact(raw);
    if blocks != [] {
      WrittenSections(blocks);
      WrittenTrim(blocks);
      forall i | 0 <= i < |raw|
        ensures Strip(raw[i]) == Written(blocks)[i]
      {
        PaddedStrips(raw[i], Written(blocks)[i]);
      }
      assert Stripped(raw) == Written(blocks);
      WrittenPairs(blocks);
    }
  }
}
