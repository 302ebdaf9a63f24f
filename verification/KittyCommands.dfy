// Rewriting one graphics command: a command that names a file becomes one or
// several commands that carry the file's contents.
module KittyCommands {
  import opened Options
  import opened Bytes
  import opened Base64
  import opened KittyStream

  const SEMICOLON: byte := 59
  const COMMA: byte := 44
  const EQUALS: byte := 61
  const KEY_T: bytes := [116]
  const KEY_A: bytes := [97]
  const KEY_M: bytes := [109]
  const KEY_S: bytes := [83]
  const KEY_O: bytes := [79]
  const DIRECT: bytes := [100]
  const T_DIRECT: bytes := [116, 61, 100]
  const M_ONE: bytes := [109, 61, 49]
  const M_ZERO: bytes := [109, 61, 48]
  const STRING_TERMINATOR: bytes := [ESC, BACKSLASH]
  const MAX_PAYLOAD: nat := 4096

  // ---- control strings: key=value pairs separated by commas ----

  predicate Lacks(s: bytes, b: byte) { forall i :: 0 <= i < |s| ==> s[i] != b }

  function Split(s: bytes): (parts: seq<bytes>)
    ensures |parts| >= 1
  {
    if s == [] then [[]]
    else
      var rest := Split(s[1..]);
      if s[0] == COMMA then [[]] + rest else [[s[0]] + rest[0]] + rest[1..]
  }

  function Join(parts: seq<bytes>): bytes {
    if parts == [] then []
    else if |parts| == 1 then parts[0]
    else parts[0] + ([COMMA] + Join(parts[1..]))
  }

  /** Index of the first `b` in `s`, or the length of `s`. */
  function IndexOf(s: bytes, b: byte): (i: nat)
    ensures i <= |s| && Lacks(s[..i], b) && (i < |s| ==> s[i] == b)
  {
    if s == [] || s[0] == b then 0
    else
      var i := 1 + IndexOf(s[1..], b);
      assert s[..i] == [s[0]] + s[1..][..i - 1];
      i
  }

  predicate HasKey(pair: bytes, key: bytes) {
    IndexOf(pair, EQUALS) < |pair| && pair[..IndexOf(pair, EQUALS)] == key
  }

  function ValueIn(pair: bytes): bytes
    requires IndexOf(pair, EQUALS) < |pair|
  {
    pair[IndexOf(pair, EQUALS) + 1..]
  }

  /** The value of the first pair with this key. */
  function FirstValue(parts: seq<bytes>, key: bytes): Option<bytes> {
    if parts == [] then None
    else if HasKey(parts[0], key) then Some(ValueIn(parts[0]))
    else FirstValue(parts[1..], key)
  }

  /** controlValue: empty when the key is missing. */
  function ControlValue(raw: bytes, key: bytes): bytes {
    var v := FirstValue(Split(raw), key);
    if v.None? then [] else v.value
  }

  /** The pairs rewriteControl keeps: `t` made direct; size, offset and chunk marks dropped. */
  function Kept(parts: seq<bytes>): seq<bytes> {
    if parts == [] then []
    else if HasKey(parts[0], KEY_T) then [T_DIRECT] + Kept(parts[1..])
    else if HasKey(parts[0], KEY_S) || HasKey(parts[0], KEY_O) || HasKey(parts[0], KEY_M) then Kept(parts[1..])
    else [parts[0]] + Kept(parts[1..])
  }

  predicate Dropped(key: bytes) { key == KEY_S || key == KEY_O || key == KEY_M }

  lemma OneKey(pair: bytes, k: bytes, l: bytes)
    requires HasKey(pair, k) && HasKey(pair, l)
    ensures k == l
  {}

  lemma MarkKeys()
    ensures HasKey(T_DIRECT, KEY_T) && ValueIn(T_DIRECT) == DIRECT
    ensures HasKey(M_ONE, KEY_M) && ValueIn(M_ONE) == [49]
    ensures HasKey(M_ZERO, KEY_M) && ValueIn(M_ZERO) == [48]
  {
    assert IndexOf(T_DIRECT, EQUALS) == 1 by { assert T_DIRECT[1..] == [61, 100]; }
    assert IndexOf(M_ONE, EQUALS) == 1 by { assert M_ONE[1..] == [61, 49]; }
    assert IndexOf(M_ZERO, EQUALS) == 1 by { assert M_ZERO[1..] == [61, 48]; }
  }

  /** Meaning of the rewrite: `t` becomes direct, S, O and m disappear, every other key is as before. */
  lemma {:induction false} KeptMeaning(parts: seq<bytes>, key: bytes)
    ensures FirstValue(Kept(parts), key) ==
              if Dropped(key) then None
              else if key == KEY_T && FirstValue(parts, key).Some? then Some(DIRECT)
              else FirstValue(parts, key)
  {
    MarkKeys();
    if parts != [] {
      KeptMeaning(parts[1..], key);
      var rest := Kept(parts[1..]);
      assert ([T_DIRECT] + rest)[1..] == rest && ([parts[0]] + rest)[1..] == rest;
    }
  }

  /** The pairs whose key is none of these. */
  function Others(parts: seq<bytes>, keys: set<bytes>): seq<bytes> {
    if parts == [] then []
    else
      var eq := IndexOf(parts[0], EQUALS);
      (if eq < |parts[0]| && parts[0][..eq] in keys then [] else [parts[0]]) + Others(parts[1..], keys)
  }

  lemma OthersFirst(p: bytes, rest: seq<bytes>, keys: set<bytes>)
    ensures Others([p] + rest, keys) == Others([p], keys) + Others(rest, keys)
  {
    assert ([p] + rest)[1..] == rest;
    assert Others([p], keys) + [] == Others([p], keys) && [p][1..] == [];
  }

  /** The other pairs stay as they are and where they are, those without a key among them. */
  lemma {:induction false} KeptOthers(parts: seq<bytes>)
    ensures Others(Kept(parts), {[116], [83], [79], [109]}) == Others(parts, {[116], [83], [79], [109]})
  {
    if parts != [] {
      KeptOthers(parts[1..]);
      MarkKeys();
      OthersFirst(T_DIRECT, Kept(parts[1..]), {[116], [83], [79], [109]});
      OthersFirst(parts[0], Kept(parts[1..]), {[116], [83], [79], [109]});
      OthersFirst(parts[0], parts[1..], {[116], [83], [79], [109]});
      assert [parts[0]] + parts[1..] == parts;
    }
  }

  // ---- splitting and joining ----

  lemma {:induction false} SplitBeforeComma(p: bytes, s: bytes)
    requires Lacks(p, COMMA)
    ensures Split(p + ([COMMA] + s)) == [p] + Split(s)
  {
    if p == [] {
      assert p + ([COMMA] + s) == [COMMA] + s;
      assert ([COMMA] + s)[1..] == s;
    } else {
      SplitBeforeComma(p[1..], s);
      assert (p + ([COMMA] + s))[1..] == p[1..] + ([COMMA] + s);
      assert [p[0]] + p[1..] == p;
    }
  }

  lemma {:induction false} SplitNoComma(p: bytes)
    requires Lacks(p, COMMA)
    ensures Split(p) == [p]
  {
    if p != [] {
      SplitNoComma(p[1..]);
      assert [p[0]] + p[1..] == p;
    }
  }

  lemma {:induction false} SplitJoin(parts: seq<bytes>)
    requires parts != [] && forall p :: p in parts ==> Lacks(p, COMMA)
    ensures Split(Join(parts)) == parts
  {
    if |parts| == 1 {
      SplitNoComma(parts[0]);
    } else {
      SplitJoin(parts[1..]);
      SplitBeforeComma(parts[0], Join(parts[1..]));
    }
  }

  /** No terminator and no semicolon: what a control string cut from a command looks like. */
  predicate Safe(s: bytes) {
    Lacks(s, SEMICOLON) && forall i: nat :: i < |s| ==> TerminatorLength(s, i) == 0
  }

  lemma SafeSlice(s: bytes, i: nat, j: nat)
    requires Safe(s) && i <= j <= |s|
    ensures Safe(s[i..j])
  {
    forall k: nat | k < j - i ensures TerminatorLength(s[i..j], k) == 0 {
      assert TerminatorLength(s, i + k) == 0;
    }
  }

  lemma SafeAppend(s: bytes, t: bytes)
    requires Safe(s) && Safe(t) && (t != [] ==> t[0] != BACKSLASH)
    ensures Safe(s + t)
  {
    forall k: nat | k < |s + t| ensures TerminatorLength(s + t, k) == 0 {
      if k < |s| {
        assert TerminatorLength(s, k) == 0;
      } else {
        assert TerminatorLength(t, k - |s|) == 0;
      }
    }
  }

  lemma {:induction false} SplitSafe(s: bytes)
    requires Safe(s)
    ensures forall p :: p in Split(s) ==> Safe(p) && Lacks(p, COMMA)
    ensures Split(s)[0] == s[..IndexOf(s, COMMA)]
  {
    if s != [] {
      SafeSlice(s, 1, |s|);
      assert s[1..|s|] == s[1..];
      SplitSafe(s[1..]);
      SafeSlice(s, 0, IndexOf(s, COMMA));
      var n := IndexOf(s[1..], COMMA);
      if s[0] != COMMA {
        assert s[..n + 1] == [s[0]] + s[1..][..n];
      }
    }
  }

  lemma {:induction false} JoinSafe(parts: seq<bytes>)
    requires forall p :: p in parts ==> Safe(p)
    ensures Safe(Join(parts))
  {
    if |parts| > 1 {
      JoinSafe(parts[1..]);
      var tail := Join(parts[1..]);
      SafeComma(tail);
      SafeAppend(parts[0], [COMMA] + tail);
    }
  }

  lemma SafeComma(t: bytes)
    requires Safe(t)
    ensures Safe([COMMA] + t)
  {
    forall k: nat | k < |t| + 1 ensures TerminatorLength([COMMA] + t, k) == 0 {
      if k > 0 { assert TerminatorLength(t, k - 1) == 0; }
    }
  }

  lemma {:induction false} KeptParts(parts: seq<bytes>)
    requires forall p :: p in parts ==> Safe(p) && Lacks(p, COMMA)
    ensures forall p :: p in Kept(parts) ==> Safe(p) && Lacks(p, COMMA)
    ensures FirstValue(parts, KEY_T).Some? ==> Kept(parts) != []
  {
    if parts != [] {
      KeptParts(parts[1..]);
      assert Safe(T_DIRECT);
    }
  }

  /** What one pair contributes. */
  function KeptOne(pair: bytes): seq<bytes> {
    if HasKey(pair, KEY_T) then [T_DIRECT]
    else if HasKey(pair, KEY_S) || HasKey(pair, KEY_O) || HasKey(pair, KEY_M) then []
    else [pair]
  }

  lemma KeptStep(parts: seq<bytes>, i: nat, kept: seq<bytes>)
    requires i < |parts|
    ensures kept + Kept(parts[i..]) == (kept + KeptOne(parts[i])) + Kept(parts[i + 1..])
    ensures FirstValue(parts[i..], KEY_T).Some? <==> HasKey(parts[i], KEY_T) || FirstValue(parts[i + 1..], KEY_T).Some?
    ensures kept + [] == kept
  {
    assert parts[i..][0] == parts[i] && parts[i..][1..] == parts[i + 1..];
    AppendAssoc(kept, KeptOne(parts[i]), Kept(parts[i + 1..]));
  }

  /** rewriteControl: the kept pairs, and whether a medium was there to rewrite. */
  method RewriteControl(raw: bytes) returns (control: bytes, found: bool)
    ensures control == Join(Kept(Split(raw)))
    ensures found <==> FirstValue(Split(raw), KEY_T).Some?
  {
    var parts := Split(raw);
    found := false;
    var kept: seq<bytes> := [];
    for i := 0 to |parts|
      invariant Kept(parts) == kept + Kept(parts[i..])
      invariant FirstValue(parts, KEY_T).Some? <==> found || FirstValue(parts[i..], KEY_T).Some?
    {
      var pair := parts[i];
      KeptStep(parts, i, kept);
      var eq := IndexOf(pair, EQUALS);
      if eq == |pair| {
        kept := kept + [pair];
        continue;
      }
      var key := pair[..eq];
      if key == KEY_T {
        kept := kept + [T_DIRECT];
        found := true;
      } else if !Dropped(key) {
        kept := kept + [pair];
      }
    }
    control := Join(kept);
    assert parts[|parts|..] == [] && kept + [] == kept;
  }

  // ---- building commands ----

  /** ESC _ G control ; payload terminator */
  function KittyCommand(control: bytes, payload: bytes, terminator: bytes): bytes {
    INTRO + (control + ([SEMICOLON] + (payload + terminator)))
  }

  /** Between the intro and the terminator. */
  function BodyOf(c: bytes): bytes
    requires IsCommand(c)
  {
    c[3..FirstTerminator(c, 3).pos]
  }

  function ControlOf(c: bytes): bytes
    requires IsCommand(c)
  {
    BodyOf(c)[..IndexOf(BodyOf(c), SEMICOLON)]
  }

  function PayloadOf(c: bytes): bytes
    requires IsCommand(c)
  {
    var semi := IndexOf(BodyOf(c), SEMICOLON);
    if semi < |BodyOf(c)| then BodyOf(c)[semi + 1..] else []
  }

  predicate IsTerminator(t: bytes) { t == [BEL] || t == STRING_TERMINATOR }

  lemma IndexOfIs(s: bytes, b: byte, i: nat)
    requires i < |s| && s[i] == b && Lacks(s[..i], b)
    ensures IndexOf(s, b) == i
  {
    var j := IndexOf(s, b);
    forall k | 0 <= k < j ensures s[k] != b {
      assert s[..j][k] != b;
    }
    forall k | 0 <= k < i ensures s[k] != b {
      assert s[..i][k] != b;
    }
  }

  /** No terminator inside the payload: the bytes a command can carry. */
  predicate Carriable(payload: bytes) {
    (forall i: nat :: i < |payload| ==> TerminatorLength(payload, i) == 0)
  }

  lemma BodyHasNoTerminator(control: bytes, payload: bytes, i: nat)
    requires Safe(control) && Carriable(payload) && i < |control| + 1 + |payload|
    ensures TerminatorLength(control + ([SEMICOLON] + payload), i) == 0
  {
    if i < |control| {
      assert TerminatorLength(control, i) == 0;
    } else if i > |control| {
      assert TerminatorLength(payload, i - |control| - 1) == 0;
    }
  }

  lemma CommandTerminator(control: bytes, payload: bytes, terminator: bytes)
    requires Safe(control) && Carriable(payload) && IsTerminator(terminator)
    ensures var c := KittyCommand(control, payload, terminator);
            FirstTerminator(c, 3) == At(3 + |control| + 1 + |payload|, |terminator|)
  {
    var c := KittyCommand(control, payload, terminator);
    var body := control + ([SEMICOLON] + payload);
    assert c == INTRO + body + terminator;
    forall i: nat | 3 <= i < 3 + |body| ensures TerminatorLength(c, i) == 0 {
      BodyHasNoTerminator(control, payload, i - 3);
      assert c[i] == body[i - 3];
      assert c[i + 1] == if i - 2 < |body| then body[i - 2] else terminator[0];
    }
    assert c[3 + |body|] == terminator[0] && (|terminator| == 2 ==> c[4 + |body|] == terminator[1]);
    FirstTerminatorUnique(c, 3, 3 + |body|);
  }

  /** A command built from safe parts is one command, and its parts can be read back. */
  lemma BuiltCommand(control: bytes, payload: bytes, terminator: bytes)
    requires Safe(control) && Carriable(payload) && IsTerminator(terminator)
    ensures var c := KittyCommand(control, payload, terminator);
            IsCommand(c) && ControlOf(c) == control && PayloadOf(c) == payload && TerminatorOf(c) == terminator
  {
    CommandTerminator(control, payload, terminator);
    var c := KittyCommand(control, payload, terminator);
    var body := control + ([SEMICOLON] + payload);
    assert c == INTRO + body + terminator;
    assert BodyOf(c) == body;
    assert body[..|control|] == control;
    IndexOfIs(body, SEMICOLON, |control|);
    assert body[|control| + 1..] == payload;
  }

  // ---- a transmission split over several commands ----

  /** The commands carrying the encoded text `e` after the first block. */
  function Continuation(e: bytes): seq<bytes> {
    if |e| <= MAX_PAYLOAD then [KittyCommand(M_ZERO, e, STRING_TERMINATOR)]
    else [KittyCommand(M_ONE, e[..MAX_PAYLOAD], STRING_TERMINATOR)] + Continuation(e[MAX_PAYLOAD..])
  }

  /** All commands carrying the encoded text `e`. */
  function DataCommands(control: bytes, e: bytes): seq<bytes> {
    if |e| <= MAX_PAYLOAD then [KittyCommand(control, e, STRING_TERMINATOR)]
    else
      [KittyCommand(control + ([COMMA] + M_ONE), e[..MAX_PAYLOAD], STRING_TERMINATOR)] + Continuation(e[MAX_PAYLOAD..])
  }

  /** kittyDataCommands: the commands one after the other, built in blocks of 4096 bytes. */
  method KittyDataCommands(control: bytes, data: bytes) returns (out: bytes)
    ensures out == Concat(DataCommands(control, Encode(data)))
  {
    var encoded := Encode(data);
    if |encoded| <= MAX_PAYLOAD {
      out := KittyCommand(control, encoded, STRING_TERMINATOR);
      assert out + [] == out;
      return;
    }
    out := [];
    var first := control + ([COMMA] + M_ONE);
    var start := 0;
    ghost var all := Concat(DataCommands(control, encoded));
    assert out + all == all;
    while start < |encoded|
      invariant start <= |encoded|
      invariant start > 0 ==> all == out + (if start < |encoded| then Concat(Continuation(encoded[start..])) else [])
      invariant start == 0 ==> out == []
    {
      var end := start + MAX_PAYLOAD;
      if end > |encoded| {
        end := |encoded|;
      }
      var block := encoded[start..end];
      ghost var rest := encoded[start..];
      assert block == rest[..end - start] && rest[end - start..] == encoded[end..];
      var command;
      if start == 0 {
        command := KittyCommand(first, block, STRING_TERMINATOR);
      } else if end == |encoded| {
        command := KittyCommand(M_ZERO, block, STRING_TERMINATOR);
        assert block == rest && Continuation(rest) == [command] && command + [] == command;
      } else {
        command := KittyCommand(M_ONE, block, STRING_TERMINATOR);
      }
      AppendAssoc(out, command, if end < |encoded| then Concat(Continuation(encoded[end..])) else []);
      out := out + command;
      start := end;
    }
  }

  /** Payloads one after the other. */
  function Payloads(cmds: seq<bytes>): bytes
    requires forall c :: c in cmds ==> IsCommand(c)
  {
    if cmds == [] then [] else PayloadOf(cmds[0]) + Payloads(cmds[1..])
  }

  lemma PrintableCarriable(e: bytes)
    requires forall i :: 0 <= i < |e| ==> Printable(e[i])
    ensures Carriable(e)
  {}

  lemma MarksSafe(control: bytes)
    requires Safe(control)
    ensures Safe(M_ONE) && Safe(M_ZERO) && Safe(control + ([COMMA] + M_ONE))
  {
    SafeComma(M_ONE);
    SafeAppend(control, [COMMA] + M_ONE);
  }

  /** Chunk marks: `m=1` on all but the last command, `m=0` on the last. */
  ghost predicate ChunkMarks(cmds: seq<bytes>)
    requires forall c :: c in cmds ==> IsCommand(c)
  {
    forall i :: 0 <= i < |cmds| ==>
      ControlValue(ControlOf(cmds[i]), KEY_M) == if i == |cmds| - 1 then [48] else [49]
  }

  lemma MarkValues()
    ensures ControlValue(M_ONE, KEY_M) == [49] && ControlValue(M_ZERO, KEY_M) == [48]
  {
    SplitNoComma(M_ONE);
    SplitNoComma(M_ZERO);
    MarkKeys();
  }

  lemma PrependBlock(c: bytes, rest: seq<bytes>)
    requires IsCommand(c) && |PayloadOf(c)| <= MAX_PAYLOAD && ControlValue(ControlOf(c), KEY_M) == [49]
    requires rest != [] && (forall b :: b in rest ==> IsCommand(b) && |PayloadOf(b)| <= MAX_PAYLOAD)
    requires ChunkMarks(rest)
    ensures forall b :: b in [c] + rest ==> IsCommand(b) && |PayloadOf(b)| <= MAX_PAYLOAD
    ensures ChunkMarks([c] + rest) && Payloads([c] + rest) == PayloadOf(c) + Payloads(rest)
  {
    assert ([c] + rest)[1..] == rest;
  }

  /** A later block with its mark. */
  lemma MarkedBlock(mark: bytes, e: bytes)
    requires (mark == M_ONE || mark == M_ZERO) && forall i :: 0 <= i < |e| ==> Printable(e[i])
    ensures var c := KittyCommand(mark, e, STRING_TERMINATOR);
            IsCommand(c) && PayloadOf(c) == e && ControlValue(ControlOf(c), KEY_M) == ValueIn(mark)
  {
    MarksSafe([]);
    MarkKeys();
    MarkValues();
    PrintableCarriable(e);
    BuiltCommand(mark, e, STRING_TERMINATOR);
  }

  lemma OneLastBlock(c: bytes)
    requires IsCommand(c) && ControlValue(ControlOf(c), KEY_M) == [48]
    ensures ChunkMarks([c]) && Payloads([c]) == PayloadOf(c)
  {
    assert [c][1..] == [] && PayloadOf(c) + [] == PayloadOf(c);
  }

  lemma {:induction false} ContinuationCarries(e: bytes)
    requires forall i :: 0 <= i < |e| ==> Printable(e[i])
    ensures var cmds := Continuation(e);
            && |cmds| >= 1
            && (forall c :: c in cmds ==> IsCommand(c) && |PayloadOf(c)| <= MAX_PAYLOAD)
            && Payloads(cmds) == e
            && ChunkMarks(cmds)
  {
    if |e| <= MAX_PAYLOAD {
      MarkKeys();
      MarkedBlock(M_ZERO, e);
      OneLastBlock(KittyCommand(M_ZERO, e, STRING_TERMINATOR));
    } else {
      MarkKeys();
      MarkedBlock(M_ONE, e[..MAX_PAYLOAD]);
      ContinuationCarries(e[MAX_PAYLOAD..]);
      PrependBlock(KittyCommand(M_ONE, e[..MAX_PAYLOAD], STRING_TERMINATOR), Continuation(e[MAX_PAYLOAD..]));
      assert e[..MAX_PAYLOAD] + e[MAX_PAYLOAD..] == e;
    }
  }

  /**
   * What the commands of a transmission carry: payloads of at most 4096 bytes
   * that are the base64 text of the data one after the other, chunk marks
   * exactly when there are several commands, and on the first command the
   * medium direct and the other pairs of the control string as in `parts`.
   */
  ghost predicate CarriesImage(cmds: seq<bytes>, parts: seq<bytes>, data: bytes) {
    && |cmds| >= 1
    && (forall c :: c in cmds ==> IsCommand(c) && |PayloadOf(c)| <= MAX_PAYLOAD)
    && Payloads(cmds) == Encode(data)
    && (|cmds| > 1 ==> ChunkMarks(cmds))
    && (|cmds| == 1 ==> ControlValue(ControlOf(cmds[0]), KEY_M) == [])
    && ControlValue(ControlOf(cmds[0]), KEY_T) == DIRECT
    && forall key :: key != KEY_T && !Dropped(key) ==>
         FirstValue(Split(ControlOf(cmds[0])), key) == FirstValue(parts, key)
  }

  /** A transmission of `data` under a rewritten control string carries it. */
  lemma DataCommandsCarry(parts: seq<bytes>, data: bytes)
    requires forall p :: p in parts ==> Safe(p) && Lacks(p, COMMA)
    requires FirstValue(parts, KEY_T).Some?
    ensures CarriesImage(DataCommands(Join(Kept(parts)), Encode(data)), parts, data)
    ensures Decode(Payloads(DataCommands(Join(Kept(parts)), Encode(data)))) == Some(data)
  {
    if |Encode(data)| <= MAX_PAYLOAD {
      OneBlockCarries(parts, data);
    } else {
      SeveralBlocksCarry(parts, data);
    }
    PayloadsDecode(DataCommands(Join(Kept(parts)), Encode(data)), parts, data);
  }

  lemma PayloadsDecode(cmds: seq<bytes>, parts: seq<bytes>, data: bytes)
    requires CarriesImage(cmds, parts, data)
    ensures Decode(Payloads(cmds)) == Some(data)
  {
    DecodeEncode(data);
  }

  lemma SeveralBlocksCarry(parts: seq<bytes>, data: bytes)
    requires forall p :: p in parts ==> Safe(p) && Lacks(p, COMMA)
    requires FirstValue(parts, KEY_T).Some? && |Encode(data)| > MAX_PAYLOAD
    ensures CarriesImage(DataCommands(Join(Kept(parts)), Encode(data)), parts, data)
  {
    KeptParts(parts);
    KeptMeaning(parts, KEY_M);
    var cmds := DataCommands(Join(Kept(parts)), Encode(data));
    MultiBlockCarries(Kept(parts), Encode(data));
    DirectMedium(cmds[0], parts);
    SameValues(cmds[0], parts);
  }

  lemma DirectMedium(c: bytes, parts: seq<bytes>)
    requires IsCommand(c) && FirstValue(parts, KEY_T).Some?
    requires FirstValue(Split(ControlOf(c)), KEY_T) == FirstValue(Kept(parts), KEY_T)
    ensures ControlValue(ControlOf(c), KEY_T) == DIRECT
  {
    KeptMeaning(parts, KEY_T);
  }

  /** The kept pairs read on a command are the pairs of the original but for the rewritten ones. */
  lemma SameValues(c: bytes, parts: seq<bytes>)
    requires IsCommand(c)
    requires forall key :: key != KEY_M ==> FirstValue(Split(ControlOf(c)), key) == FirstValue(Kept(parts), key)
    ensures forall key :: key != KEY_T && !Dropped(key) ==>
              FirstValue(Split(ControlOf(c)), key) == FirstValue(parts, key)
  {
    forall key | key != KEY_T && !Dropped(key)
      ensures FirstValue(Split(ControlOf(c)), key) == FirstValue(parts, key)
    {
      KeptMeaning(parts, key);
    }
  }

  lemma OneBlockCarries(parts: seq<bytes>, data: bytes)
    requires forall p :: p in parts ==> Safe(p) && Lacks(p, COMMA)
    requires FirstValue(parts, KEY_T).Some? && |Encode(data)| <= MAX_PAYLOAD
    ensures CarriesImage(DataCommands(Join(Kept(parts)), Encode(data)), parts, data)
  {
    var control, e := Join(Kept(parts)), Encode(data);
    var c := KittyCommand(control, e, STRING_TERMINATOR);
    var cmds: seq<bytes> := [c];
    KeptParts(parts);
    JoinSafe(Kept(parts));
    PrintableCarriable(e);
    BuiltCommand(control, e, STRING_TERMINATOR);
    assert Payloads(cmds) == e by {
      assert cmds[1..] == [] && e + [] == e;
    }
    SplitJoin(Kept(parts));
    KeptMeaning(parts, KEY_T);
    KeptMeaning(parts, KEY_M);
    SameValues(c, parts);
  }

  lemma {:induction false} JoinLast(parts: seq<bytes>, x: bytes)
    requires parts != []
    ensures Join(parts + [x]) == Join(parts) + ([COMMA] + x)
  {
    if |parts| == 1 {
      assert (parts + [x])[1..] == [x];
    } else {
      JoinLast(parts[1..], x);
      assert (parts + [x])[1..] == parts[1..] + [x];
      AppendAssoc([COMMA], Join(parts[1..]), [COMMA] + x);
      AppendAssoc(parts[0], [COMMA] + Join(parts[1..]), [COMMA] + x);
    }
  }

  lemma {:induction false} FirstValueLast(parts: seq<bytes>, x: bytes, key: bytes)
    ensures FirstValue(parts + [x], key) ==
              if FirstValue(parts, key).Some? then FirstValue(parts, key)
              else if HasKey(x, key) then Some(ValueIn(x)) else None
  {
    if parts == [] {
      assert parts + [x] == [x] && [x][1..] == [];
    } else {
      FirstValueLast(parts[1..], x, key);
      assert (parts + [x])[1..] == parts[1..] + [x];
    }
  }

  /** Adding the chunk mark to a control string changes the value of `m` only. */
  lemma MarkedControl(kept: seq<bytes>, key: bytes)
    requires kept != [] && forall p :: p in kept ==> Safe(p) && Lacks(p, COMMA)
    requires FirstValue(kept, KEY_M).None?
    ensures FirstValue(Split(Join(kept) + ([COMMA] + M_ONE)), key) ==
              if key == KEY_M then Some([49]) else FirstValue(kept, key)
  {
    JoinLast(kept, M_ONE);
    SplitJoin(kept + [M_ONE]);
    MarkKeys();
    FirstValueLast(kept, M_ONE, key);
    if key != KEY_M && HasKey(M_ONE, key) {
      OneKey(M_ONE, key, KEY_M);
    }
  }

  /** A transmission that needs several commands, under the pairs `kept`, none of them `m`. */
  lemma MultiBlockCarries(kept: seq<bytes>, e: bytes)
    requires |e| > MAX_PAYLOAD && forall i :: 0 <= i < |e| ==> Printable(e[i])
    requires kept != [] && forall p :: p in kept ==> Safe(p) && Lacks(p, COMMA)
    requires FirstValue(kept, KEY_M).None?
    ensures var cmds := DataCommands(Join(kept), e);
            && |cmds| >= 2
            && (forall c :: c in cmds ==> IsCommand(c) && |PayloadOf(c)| <= MAX_PAYLOAD)
            && Payloads(cmds) == e
            && ChunkMarks(cmds)
            && (forall key :: key != KEY_M ==> FirstValue(Split(ControlOf(cmds[0])), key) == FirstValue(kept, key))
  {
    var control := Join(kept) + ([COMMA] + M_ONE);
    forall key ensures FirstValue(Split(control), key) == if key == KEY_M then Some([49]) else FirstValue(kept, key) {
      MarkedControl(kept, key);
    }
    JoinSafe(kept);
    MarksSafe(Join(kept));
    PrintableCarriable(e[..MAX_PAYLOAD]);
    BuiltCommand(control, e[..MAX_PAYLOAD], STRING_TERMINATOR);
    ContinuationCarries(e[MAX_PAYLOAD..]);
    PrependBlock(KittyCommand(control, e[..MAX_PAYLOAD], STRING_TERMINATOR), Continuation(e[MAX_PAYLOAD..]));
    assert e[..MAX_PAYLOAD] + e[MAX_PAYLOAD..] == e;
  }

  // ---- one command in, its replacement out ----

  /** Query commands are only told that the medium is direct. */
  function MadeDirect(parts: seq<bytes>): seq<bytes> {
    if parts == [] then []
    else [if HasKey(parts[0], KEY_T) then T_DIRECT else parts[0]] + MadeDirect(parts[1..])
  }

  const QUERY: bytes := [113]

  predicate FileMedium(medium: bytes) { medium == [102] || medium == [116] || medium == [115] }

  predicate Transmits(action: bytes) { action == [] || action == [116] || action == [84] || action == [102] }

  /** The second half of transcode, for a command cut into its parts. */
  function Rewritten(fetch: (bytes, bytes, bytes) -> Option<bytes>, command: bytes,
                     raw: bytes, payload: bytes, terminator: bytes): bytes {
    var medium, action := ControlValue(raw, KEY_T), ControlValue(raw, KEY_A);
    if !FileMedium(medium) then command
    else if action == QUERY then KittyCommand(Join(MadeDirect(Split(raw))), payload, terminator)
    else if !Transmits(action) then command
    else
      var data := fetch(medium, raw, payload);
      if data.None? then command else Concat(DataCommands(Join(Kept(Split(raw))), Encode(data.value)))
  }

  datatype Parts = Parts(raw: bytes, payload: bytes, terminator: bytes)

  /** The first half: the control string, the payload and the terminator, if the command has them. */
  function PartsOf(command: bytes): Option<Parts> {
    if |command| < 5 then None
    else
      var t := FirstTerminator(command, 3);
      if t.Nowhere? then None
      else
        var body := command[3..t.pos];
        var semi := IndexOf(body, SEMICOLON);
        if semi == |body| then None
        else Some(Parts(body[..semi], body[semi + 1..], command[t.pos..t.pos + t.len]))
  }

  /**
   * transcode. `fetch` stands for decoding the path and reading the file: it
   * takes the medium, the control string and the payload.
   */
  function Transcode(fetch: (bytes, bytes, bytes) -> Option<bytes>, command: bytes): bytes {
    match PartsOf(command)
    case None => command
    case Some(p) => Rewritten(fetch, command, p.raw, p.payload, p.terminator)
  }

  lemma PartsOfCommand(c: bytes)
    requires IsCommand(c)
    ensures PartsOf(c) == if IndexOf(BodyOf(c), SEMICOLON) == |BodyOf(c)| then None
                          else Some(Parts(ControlOf(c), PayloadOf(c), TerminatorOf(c)))
  {
    var t := FirstTerminator(c, 3);
    assert c[t.pos..t.pos + t.len] == TerminatorOf(c);
  }

  /** The commands a scan finds, in order. */
  function CommandsIn(d: bytes): seq<bytes> {
    if d == [] then []
    else
      match HeadOf(d)
      case Unfinished => []
      case Text(n) => CommandsIn(d[n..])
      case Command(n) => [d[..n]] + CommandsIn(d[n..])
  }

  /** Scanning commands put one after the other finds exactly those, and leaves nothing over. */
  lemma {:induction false} CommandsInConcat(cmds: seq<bytes>)
    requires forall c :: c in cmds ==> IsCommand(c)
    ensures CommandsIn(Concat(cmds)) == cmds
    ensures Scan(Concat(cmds), x => x).carry == []
  {
    if cmds != [] {
      var c, rest := cmds[0], Concat(cmds[1..]);
      assert c in cmds;
      CommandsInConcat(cmds[1..]);
      HeadStable(c, rest);
      assert HeadOf(c) == Command(|c|);
      assert (c + rest)[..|c|] == c && (c + rest)[|c|..] == rest;
      assert cmds == [c] + cmds[1..];
    }
  }

  lemma BodySafe(c: bytes)
    requires IsCommand(c)
    ensures Safe(ControlOf(c)) && Carriable(PayloadOf(c))
  {
    var body := BodyOf(c);
    forall i: nat | i < |body| ensures TerminatorLength(body, i) == 0 {
      assert TerminatorLength(c, i + 3) == 0;
    }
    var semi := IndexOf(body, SEMICOLON);
    forall i: nat | i < semi ensures TerminatorLength(body[..semi], i) == 0 {
      assert TerminatorLength(body, i) == 0;
    }
    if semi < |body| {
      var payload := body[semi + 1..];
      forall i: nat | i < |payload| ensures TerminatorLength(payload, i) == 0 {
        assert TerminatorLength(body, i + semi + 1) == 0;
      }
    }
  }

  /** The command has a payload and names a file medium. */
  predicate NamesFile(c: bytes)
    requires IsCommand(c)
  {
    && IndexOf(BodyOf(c), SEMICOLON) < |BodyOf(c)|
    && FileMedium(ControlValue(ControlOf(c), KEY_T))
  }

  lemma NamesFileHasT(c: bytes)
    requires IsCommand(c) && NamesFile(c)
    ensures FirstValue(Split(ControlOf(c)), KEY_T).Some?
  {}

  /**
   * The image round trip. A transmission whose file can be read becomes direct
   * commands and nothing else; a scan finds them, and they carry the file.
   */
  lemma TranscodedImage(fetch: (bytes, bytes, bytes) -> Option<bytes>, c: bytes, data: bytes)
    requires IsCommand(c) && NamesFile(c) && Transmits(ControlValue(ControlOf(c), KEY_A))
    requires fetch(ControlValue(ControlOf(c), KEY_T), ControlOf(c), PayloadOf(c)) == Some(data)
    ensures var cmds := CommandsIn(Transcode(fetch, c));
            && Concat(cmds) == Transcode(fetch, c)
            && CarriesImage(cmds, Split(ControlOf(c)), data)
            && Decode(Payloads(cmds)) == Some(data)
  {
    var parts := Split(ControlOf(c));
    var cmds := DataCommands(Join(Kept(parts)), Encode(data));
    PartsOfCommand(c);
    assert Transcode(fetch, c) == Concat(cmds);
    NamesFileHasT(c);
    BodySafe(c);
    SplitSafe(ControlOf(c));
    DataCommandsCarry(parts, data);
    CommandsInConcat(cmds);
  }

  lemma {:induction false} MadeDirectMeaning(parts: seq<bytes>, key: bytes)
    ensures FirstValue(MadeDirect(parts), key) ==
              if key == KEY_T && FirstValue(parts, key).Some? then Some(DIRECT) else FirstValue(parts, key)
    ensures |MadeDirect(parts)| == |parts|
  {
    MarkKeys();
    if parts != [] {
      MadeDirectMeaning(parts[1..], key);
      assert MadeDirect(parts)[1..] == MadeDirect(parts[1..]);
    }
  }

  lemma {:induction false} MadeDirectSafe(parts: seq<bytes>)
    requires forall p :: p in parts ==> Safe(p) && Lacks(p, COMMA)
    ensures forall p :: p in MadeDirect(parts) ==> Safe(p) && Lacks(p, COMMA)
  {
    if parts != [] {
      MadeDirectSafe(parts[1..]);
      assert Safe(T_DIRECT);
    }
  }

  lemma DirectControl(parts: seq<bytes>, key: bytes)
    requires parts != [] && forall p :: p in parts ==> Safe(p) && Lacks(p, COMMA)
    ensures Safe(Join(MadeDirect(parts)))
    ensures FirstValue(Split(Join(MadeDirect(parts))), key) ==
              if key == KEY_T && FirstValue(parts, key).Some? then Some(DIRECT) else FirstValue(parts, key)
  {
    MadeDirectSafe(parts);
    MadeDirectMeaning(parts, key);
    SplitJoin(MadeDirect(parts));
    JoinSafe(MadeDirect(parts));
  }

  function TerminatorOf(c: bytes): bytes
    requires IsCommand(c)
  {
    c[FirstTerminator(c, 3).pos..]
  }

  lemma TerminatorOfIs(c: bytes)
    requires IsCommand(c)
    ensures IsTerminator(TerminatorOf(c))
  {
    var p := FirstTerminator(c, 3).pos;
    assert TerminatorOf(c) == if |c| == p + 1 then [c[p]] else [c[p], c[p + 1]];
  }

  /** A query stays one command with the same payload; its medium reads as direct, all else as before. */
  lemma TranscodedQuery(fetch: (bytes, bytes, bytes) -> Option<bytes>, c: bytes, key: bytes)
    requires IsCommand(c) && NamesFile(c) && ControlValue(ControlOf(c), KEY_A) == QUERY
    ensures var out := Transcode(fetch, c);
            && IsCommand(out) && PayloadOf(out) == PayloadOf(c) && TerminatorOf(out) == TerminatorOf(c)
            && FirstValue(Split(ControlOf(out)), key) ==
                 if key == KEY_T then Some(DIRECT) else FirstValue(Split(ControlOf(c)), key)
  {
    NamesFileHasT(c);
    BodySafe(c);
    SplitSafe(ControlOf(c));
    DirectControl(Split(ControlOf(c)), key);
    TerminatorOfIs(c);
    PartsOfCommand(c);
    BuiltCommand(Join(MadeDirect(Split(ControlOf(c)))), PayloadOf(c), TerminatorOf(c));
  }

  lemma {:induction false} MadeDirectOthers(parts: seq<bytes>)
    ensures Others(MadeDirect(parts), {[116]}) == Others(parts, {[116]})
  {
    if parts != [] {
      MadeDirectOthers(parts[1..]);
      MarkKeys();
      OthersFirst(T_DIRECT, MadeDirect(parts[1..]), {[116]});
      OthersFirst(parts[0], MadeDirect(parts[1..]), {[116]});
      OthersFirst(parts[0], parts[1..], {[116]});
      assert [parts[0]] + parts[1..] == parts;
    }
  }

  // ---- what is left alone ----

  /** The command's `t` is `f`, `t` or `s`. */
  predicate ReadsFile(c: bytes)
    requires IsCommand(c)
  {
    var t := ControlValue(ControlOf(c), [116]);
    t == [102] || t == [116] || t == [115]
  }

  /** The command is a query, or transmits (`a` is missing, `t`, `T` or `f`) a file that can be read. */
  predicate Replaceable(fetch: (bytes, bytes, bytes) -> Option<bytes>, c: bytes)
    requires IsCommand(c)
  {
    var a := ControlValue(ControlOf(c), [97]);
    || a == [113]
    || ((a == [] || a == [116] || a == [84] || a == [102])
        && fetch(ControlValue(ControlOf(c), [116]), ControlOf(c), PayloadOf(c)).Some?)
  }

  lemma LeftAlone(fetch: (bytes, bytes, bytes) -> Option<bytes>, c: bytes)
    requires IsCommand(c)
    requires IndexOf(BodyOf(c), SEMICOLON) == |BodyOf(c)| || !ReadsFile(c) || !Replaceable(fetch, c)
    ensures Transcode(fetch, c) == c
  {
    PartsOfCommand(c);
  }

  /**
   * A command is changed exactly when it has a payload, its medium is a file,
   * and it is a query or transmits a file that can be read.
   */
  lemma TranscodeChangesIff(fetch: (bytes, bytes, bytes) -> Option<bytes>, c: bytes)
    requires IsCommand(c)
    ensures Transcode(fetch, c) != c
            <==> IndexOf(BodyOf(c), SEMICOLON) < |BodyOf(c)| && ReadsFile(c) && Replaceable(fetch, c)
  {
    if IndexOf(BodyOf(c), SEMICOLON) == |BodyOf(c)| || !ReadsFile(c) || !Replaceable(fetch, c) {
      LeftAlone(fetch, c);
    } else if ControlValue(ControlOf(c), KEY_A) == QUERY {
      TranscodedQuery(fetch, c, KEY_T);
    } else {
      var data := fetch(ControlValue(ControlOf(c), KEY_T), ControlOf(c), PayloadOf(c)).value;
      TranscodedImage(fetch, c, data);
      OneCommand(c);
    }
  }

  lemma OneCommand(c: bytes)
    requires IsCommand(c)
    ensures CommandsIn(c) == [c]
  {
    var cmds: seq<bytes> := [c];
    CommandsInConcat(cmds);
    assert cmds[1..] == [] && c + [] == c;
  }

  /** What a scan takes for a command is one. */
  lemma FoundIsCommand(d: bytes)
    requires d != [] && HeadOf(d).Command?
    ensures IsCommand(d[..HeadOf(d).n])
  {
    var t := FirstTerminator(d, 3);
    var c := d[..t.pos + t.len];
    forall i: nat | i <= t.pos ensures TerminatorLength(c, i) == TerminatorLength(d, i) {}
    FirstTerminatorUnique(c, 3, t.pos);
  }

  lemma {:induction false} CommandsAreCommands(d: bytes)
    ensures forall c :: c in CommandsIn(d) ==> IsCommand(c)
  {
    if d != [] && !HeadOf(d).Unfinished? {
      CommandsAreCommands(d[HeadOf(d).n..]);
      if HeadOf(d).Command? {
        FoundIsCommand(d);
      }
    }
  }

  /** A stream none of whose commands is changed passes through byte for byte. */
  lemma {:induction false} UnchangedPasses(d: bytes, f: bytes -> bytes)
    requires forall c :: c in CommandsIn(d) ==> f(c) == c
    ensures Scan(d, f).out + Scan(d, f).carry == d
  {
    if d != [] && !HeadOf(d).Unfinished? {
      var n := HeadOf(d).n;
      var head, rest := d[..n], d[n..];
      if HeadOf(d).Command? {
        assert CommandsIn(d) == [head] + CommandsIn(rest);
        assert CommandsIn(d)[0] == head;
      }
      UnchangedPasses(rest, f);
      EmittedFirst(d, n, Scan(rest, f));
    }
  }

  lemma EmittedFirst(d: bytes, n: nat, s: Scanned)
    requires n <= |d| && s.out + s.carry == d[n..]
    ensures Emit(d[..n], s).out + Emit(d[..n], s).carry == d
  {
    AppendAssoc(d[..n], s.out, s.carry);
    assert d[..n] + d[n..] == d;
  }

  /** In particular one none of whose commands names a file. */
  lemma DirectStreamPasses(fetch: (bytes, bytes, bytes) -> Option<bytes>, d: bytes)
    requires forall c :: c in CommandsIn(d) ==> IsCommand(c) && !ReadsFile(c)
    ensures var s := Scan(d, x => Transcode(fetch, x)); s.out + s.carry == d
  {
    var f := (x: bytes) => Transcode(fetch, x);
    forall c | c in CommandsIn(d) ensures f(c) == c {
      LeftAlone(fetch, c);
    }
    UnchangedPasses(d, f);
  }
}
