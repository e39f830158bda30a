/** Name records, their versions, and what makes them acceptable. Source:
    mosh-core/src/chat_names/types.rs. */
module ChatNamesTypes {
  import opened Wrappers
  import opened Primitives
  import opened Order
  import opened Utf8

  datatype NameVersion = NameVersion(counter: u64, actor: string)

  datatype NameRecord = NameRecord(key: string, version: NameVersion, name: Option<string>)

  datatype NameError = InvalidInput | Storage

  /** The derived order: the counter decides, then the writer. */
  predicate Older(v: NameVersion, w: NameVersion) {
    v.counter < w.counter || (v.counter == w.counter && Below(v.actor, w.actor))
  }

  lemma {:induction false} OlderIsTotalOrder(u: NameVersion, v: NameVersion, w: NameVersion)
    ensures !Older(v, v)
    ensures v == w || Older(v, w) || Older(w, v)
    ensures Older(u, v) && Older(v, w) ==> Older(u, w)
    ensures Older(v, w) ==> !Older(w, v)
  {
    Irreflexive(v.actor);
    Total(v.actor, w.actor);
    if u.counter == v.counter && v.counter == w.counter && Older(u, v) && Older(v, w) {
      Transitive(u.actor, v.actor, w.actor);
    }
    if v.counter == w.counter && Below(v.actor, w.actor) {
      Asymmetric(v.actor, w.actor);
    }
  }

  predicate IsControl(c: char) {
    c < ' ' || '\U{7F}' <= c <= '\U{9F}'
  }

  /** No control character, and no line or paragraph separator. */
  predicate Printable(c: char) {
    !IsControl(c) && c != '\U{2028}' && c != '\U{2029}'
  }

  predicate IsWhitespace(c: char) {
    || '\U{9}' <= c <= '\U{D}' || c == ' ' || c == '\U{85}' || c == '\U{A0}' || c == '\U{1680}'
    || '\U{2000}' <= c <= '\U{200A}' || c == '\U{2028}' || c == '\U{2029}' || c == '\U{202F}'
    || c == '\U{205F}' || c == '\U{3000}'
  }

  /** The length of a string in UTF-8 bytes. */
  function ByteLength(s: string): (n: nat)
  {
    if s == [] then 0 else
      (if s[0] < '\U{80}' then 1 else if s[0] < '\U{800}' then 2 else if s[0] < '\U{10000}' then 3 else 4)
      + ByteLength(s[1..])
  }

  lemma {:induction false} ByteLengthIsUtf8(s: string)
    ensures ByteLength(s) == |Utf8Bytes(s)|
  {
    if s != [] {
      ByteLengthIsUtf8(s[1..]);
    }
  }

  function TrimStart(s: string): (r: string)
    ensures r == [] || !IsWhitespace(r[0])
    ensures |r| <= |s|
  {
    if s != [] && IsWhitespace(s[0]) then TrimStart(s[1..]) else s
  }

  function TrimEnd(s: string): (r: string)
    ensures r == [] || !IsWhitespace(r[|r| - 1])
    ensures r <= s
  {
    if s != [] && IsWhitespace(s[|s| - 1]) then TrimEnd(s[..|s| - 1]) else s
  }

  function Trim(s: string): (r: string) {
    TrimEnd(TrimStart(s))
  }

  /** A trimmed, printable name of 1 to 64 scalars. */
  function ValidateChatName(value: string): (r: Result<string, NameError>) {
    var name := Trim(value);
    if name == [] || |name| > 64
       || exists i :: 0 <= i < |name| && !Printable(name[i])
    then Err(InvalidInput)
    else Ok(name)
  }

  ghost predicate OnlyWhitespace(s: string) {
    forall i :: 0 <= i < |s| ==> IsWhitespace(s[i])
  }

  /** The 25 characters Unicode calls white space. */
  const WHITE_SPACE: set<char> :=
    {'\U{9}', '\U{A}', '\U{B}', '\U{C}', '\U{D}', '\U{20}', '\U{85}', '\U{A0}', '\U{1680}', '\U{2000}', '\U{2001}',
     '\U{2002}', '\U{2003}', '\U{2004}', '\U{2005}', '\U{2006}', '\U{2007}', '\U{2008}', '\U{2009}', '\U{200A}',
     '\U{2028}', '\U{2029}', '\U{202F}', '\U{205F}', '\U{3000}'}

  lemma WhitespaceIsUnicode(c: char)
    ensures IsWhitespace(c) <==> c in WHITE_SPACE
  {
    var n := c as int;
    assert n == 0x9 || n == 0xA || n == 0xB || n == 0xC || n == 0xD || !('\U{9}' <= c <= '\U{D}');
  }

  /** A name as it may be stored: 1 to 64 characters, no whitespace at either end, no
      control character and no separator of lines or paragraphs. */
  ghost predicate ProperName(name: string) {
    && 1 <= |name| <= 64
    && !IsWhitespace(name[0]) && !IsWhitespace(name[|name| - 1])
    && forall i :: 0 <= i < |name| ==> NoControl(name[i]) && name[i] != '\U{2028}' && name[i] != '\U{2029}'
  }

  /** Neither below the space nor from DEL up to U+9F. */
  predicate NoControl(c: char) {
    ' ' <= c && (c < '\U{7F}' || '\U{9F}' < c)
  }

  ghost predicate Padded(value: string, lead: string, name: string, tail: string) {
    value == lead + name + tail && OnlyWhitespace(lead) && OnlyWhitespace(tail)
  }

  /** What was typed is this name, with whitespace around it. */
  ghost predicate Spells(value: string, name: string) {
    exists lead: string, tail: string :: Padded(value, lead, name, tail)
  }

  lemma {:induction false} TrimStartCuts(s: string) returns (lead: string)
    ensures s == lead + TrimStart(s) && OnlyWhitespace(lead)
  {
    if s != [] && IsWhitespace(s[0]) {
      var rest := TrimStartCuts(s[1..]);
      lead := [s[0]] + rest;
    } else {
      lead := [];
    }
  }

  lemma {:induction false} TrimEndCuts(s: string) returns (tail: string)
    ensures s == TrimEnd(s) + tail && OnlyWhitespace(tail)
  {
    if s != [] && IsWhitespace(s[|s| - 1]) {
      var front := TrimEndCuts(s[..|s| - 1]);
      tail := front + [s[|s| - 1]];
    } else {
      tail := [];
    }
  }

  lemma {:induction false} TrimStartOf(lead: string, s: string)
    requires OnlyWhitespace(lead) && s != [] && !IsWhitespace(s[0])
    ensures TrimStart(lead + s) == s
  {
    if lead == [] {
      assert lead + s == s;
    } else {
      assert (lead + s)[1..] == lead[1..] + s;
      TrimStartOf(lead[1..], s);
    }
  }

  lemma {:induction false} TrimEndOf(s: string, tail: string)
    requires OnlyWhitespace(tail) && s != [] && !IsWhitespace(s[|s| - 1])
    ensures TrimEnd(s + tail) == s
  {
    if tail == [] {
      assert s + tail == s;
    } else {
      assert (s + tail)[..|s + tail| - 1] == s + tail[..|tail| - 1];
      TrimEndOf(s, tail[..|tail| - 1]);
    }
  }

  lemma TrimOf(lead: string, name: string, tail: string)
    requires OnlyWhitespace(lead) && OnlyWhitespace(tail)
    requires name != [] && !IsWhitespace(name[0]) && !IsWhitespace(name[|name| - 1])
    ensures Trim(lead + name + tail) == name
  {
    assert lead + name + tail == lead + (name + tail);
    TrimStartOf(lead, name + tail);
    TrimEndOf(name, tail);
  }

  lemma TypedIsAccepted(value: string, name: string)
    requires ProperName(name) && Spells(value, name)
    ensures ValidateChatName(value) == Ok(name)
  {
    var lead: string, tail: string :| Padded(value, lead, name, tail);
    TrimOf(lead, name, tail);
    assert Trim(value) == name;
  }

  lemma AcceptedIsTyped(value: string, name: string)
    requires ValidateChatName(value) == Ok(name)
    ensures ProperName(name) && Spells(value, name)
  {
    var start := TrimStart(value);
    var lead := TrimStartCuts(value);
    var tail := TrimEndCuts(start);
    assert value == lead + (name + tail) == lead + name + tail;
    assert Padded(value, lead, name, tail);
    assert name[0] == start[0];
  }

  /** A value is accepted as a name exactly when it is that name, proper, with
      nothing but whitespace around it. Nothing is cut off, and all else is refused. */
  lemma {:induction false} AcceptedExactly(value: string, name: string)
    ensures ValidateChatName(value) == Ok(name) <==> ProperName(name) && Spells(value, name)
    ensures ValidateChatName(value).Err? ==> ValidateChatName(value) == Err(InvalidInput)
  {
    if ProperName(name) && Spells(value, name) {
      TypedIsAccepted(value, name);
    }
    if ValidateChatName(value) == Ok(name) {
      AcceptedIsTyped(value, name);
    }
  }

  /** An accepted name is accepted again, unchanged: what `rename` writes passes
      the check every replica makes. */
  lemma {:induction false} AcceptedNamesAreStable(value: string)
    requires ValidateChatName(value).Ok?
    ensures ValidateChatName(ValidateChatName(value).value) == ValidateChatName(value)
  {
    var name := ValidateChatName(value).value;
    AcceptedExactly(value, name);
    assert Padded(name, [], name, []);
    AcceptedExactly(name, name);
  }

  /** The first colon, after "dm" or "channel" and before 1 to 256 bytes without
      controls. */
  predicate SplitsKey(key: string, colon: nat) {
    && colon < |key| && key[colon] == ':' && ':' !in key[..colon]
    && (key[..colon] == "dm" || key[..colon] == "channel")
    && key[colon + 1..] != [] && ByteLength(key[colon + 1..]) <= 256
    && forall i :: colon < i < |key| ==> !IsControl(key[i])
  }

  predicate ValidKey(key: string) {
    exists colon :: 0 <= colon < |key| && SplitsKey(key, colon)
  }

  /** The key of a conversation: its kind, a colon, and an id of 1 to 256 bytes that
      may hold further colons. */
  ghost predicate KeyFor(key: string, kind: string, id: string) {
    && key == kind + ":" + id && (kind == "dm" || kind == "channel")
    && id != [] && |Utf8Bytes(id)| <= 256
    && forall i :: 0 <= i < |id| ==> NoControl(id[i])
  }

  lemma SplitKeyIsJoined(key: string, colon: nat)
    requires SplitsKey(key, colon)
    ensures KeyFor(key, key[..colon], key[colon + 1..])
  {
    assert key == key[..colon] + ":" + key[colon + 1..];
    ByteLengthIsUtf8(key[colon + 1..]);
  }

  lemma JoinedKeySplits(key: string, kind: string, id: string)
    requires KeyFor(key, kind, id)
    ensures |kind| < |key| && SplitsKey(key, |kind|)
  {
    var colon := |kind|;
    assert key[..colon] == kind && key[colon + 1..] == id;
    ByteLengthIsUtf8(id);
    assert forall i :: colon < i < |key| ==> key[i] == id[i - colon - 1];
  }

  lemma {:induction false} ValidKeysExactly(key: string)
    ensures ValidKey(key) <==> exists kind: string, id: string :: KeyFor(key, kind, id)
  {
    if ValidKey(key) {
      var colon :| 0 <= colon < |key| && SplitsKey(key, colon);
      SplitKeyIsJoined(key, colon);
    }
    if exists kind: string, id: string :: KeyFor(key, kind, id) {
      var kind: string, id: string :| KeyFor(key, kind, id);
      JoinedKeySplits(key, kind, id);
    }
  }

  predicate ValidActor(actor: string) {
    actor != [] && ByteLength(actor) <= 128
  }

  predicate ValidRecord(r: NameRecord) {
    && ValidKey(r.key)
    && r.version.counter != 0 && ValidActor(r.version.actor)
    && (r.name.Some? ==> ValidateChatName(r.name.value) == Ok(r.name.value))
  }
}
