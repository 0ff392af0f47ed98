/** Version numbers: their fields, their order and their text. */
module Versions {
  import opened Numerals
  import opened Options
  import opened Texts

  datatype PreReleaseKind = Alpha | Beta | Rc

  datatype PreRelease = PreRelease(kind: PreReleaseKind, number: nat)

  datatype VypVersion = VypVersion(
    epoch: nat,
    release: seq<nat>,
    pre: Option<PreRelease>,
    post: Option<nat>,
    dev: Option<nat>,
    local: seq<string>)

  /** The numbers are 32 bits wide. */
  predicate InWidth(v: VypVersion) {
    && v.epoch <= MAX_U32
    && (forall n :: n in v.release ==> n <= MAX_U32)
    && (v.pre.Some? ==> v.pre.value.number <= MAX_U32)
    && (v.post.Some? ==> v.post.value <= MAX_U32)
    && (v.dev.Some? ==> v.dev.value <= MAX_U32)
  }

  // -- Printing --------------------------------------------------------------------------

  function Tag(kind: PreReleaseKind): string {
    match kind
    case Alpha => "a"
    case Beta => "b"
    case Rc => "rc"
  }

  function Decimals(ns: seq<nat>): seq<string> {
    seq(|ns|, i requires 0 <= i < |ns| => Decimal(ns[i]))
  }

  function PrintRelease(v: VypVersion): string {
    Join(Decimals(v.release), ".")
  }

  function PrintPre(v: VypVersion): string {
    if v.pre.Some? then Tag(v.pre.value.kind) + Decimal(v.pre.value.number) else ""
  }

  function PrintPost(v: VypVersion): string {
    if v.post.Some? then ".post" + Decimal(v.post.value) else ""
  }

  function PrintDev(v: VypVersion): string {
    if v.dev.Some? then ".dev" + Decimal(v.dev.value) else ""
  }

  /** The public part without the epoch. */
  function PrintPublic(v: VypVersion): string {
    PrintRelease(v) + PrintPre(v) + PrintPost(v) + PrintDev(v)
  }

  function PrintLocal(v: VypVersion): string {
    if v.local != [] then "+" + Join(v.local, ".") else ""
  }

  function Print(v: VypVersion): string {
    (if v.epoch != 0 then Decimal(v.epoch) + "!" else "") + (PrintPublic(v) + PrintLocal(v))
  }

  // -- Parsing ---------------------------------------------------------------------------

  function OrZero(n: Option<nat>): nat {
    if n.Some? then n.value else 0
  }

  function TrimDots(s: string): string {
    if s != "" && s[|s| - 1] == '.' then TrimDots(s[..|s| - 1]) else s
  }

  /** A release number of one kind and the text in front of it. */
  datatype Split2 = Split2(number: Option<nat>, front: string)

  /** A number that does not parse counts as zero. */
  function SplitDev(s: string): Split2 {
    match Find(Lowered(s), ".dev")
    case Some(i) => Split2(Some(OrZero(ParseNumber(s[i + 4..], MAX_U32))), s[..i])
    case None =>
      match Find(Lowered(s), "dev")
      case Some(i) =>
        if (i > 0 && s[i - 1] == '.') || i == 0 then
          Split2(Some(OrZero(ParseNumber(s[i + 3..], MAX_U32))), TrimDots(s[..i]))
        else Split2(None, s)
      case None => Split2(None, s)
  }

  function SplitPost(s: string): Split2 {
    match Find(Lowered(s), ".post")
    case Some(i) => Split2(Some(OrZero(ParseNumber(s[i + 5..], MAX_U32))), s[..i])
    case None =>
      match Find(Lowered(s), "post")
      case Some(i) =>
        if i > 0 then Split2(Some(OrZero(ParseNumber(s[i + 4..], MAX_U32))), TrimDots(s[..i]))
        else Split2(None, s)
      case None => Split2(None, s)
  }

  datatype PreTag = PreTag(text: string, kind: PreReleaseKind)

  /** In the order in which they are looked for. */
  const PRE_TAGS: seq<PreTag> := [
    PreTag("rc", Rc), PreTag("c", Rc), PreTag("preview", Rc), PreTag("beta", Beta), PreTag("b", Beta),
    PreTag("alpha", Alpha), PreTag("a", Alpha)]

  /** The pre-release marked by a tag: it follows a digit, and a number or nothing follows it. */
  function PreAt(s: string, tag: PreTag): (r: Option<(PreRelease, string)>)
  {
    match FindLast(Lowered(s), tag.text)
    case Some(i) =>
      if i > 0 && IsDigit(Lowered(s)[i - 1]) then
        var after := s[i + |tag.text|..];
        var number := if after == "" then Some(0) else ParseNumber(after, MAX_U32);
        if number.Some? then Some((PreRelease(tag.kind, number.value),
            s[..if i > 1 && s[i - 1] == '.' then i - 1 else i]))
        else None
      else None
    case None => None
  }

  function SplitPre(s: string, tags: seq<PreTag>): (Option<PreRelease>, string) {
    if tags == [] then (None, s)
    else
      match PreAt(s, tags[0])
      case Some((pre, front)) => (Some(pre), front)
      case None => SplitPre(s, tags[1..])
  }

  function Dotted(s: string): string {
    seq(|s|, i requires 0 <= i < |s| => if s[i] == '_' || s[i] == '-' then '.' else s[i])
  }

  predicate IsZero(c: char) {
    c == '0'
  }

  function ParseSegment(s: string): Option<nat> {
    var stripped := DropWhile(s, IsZero);
    ParseNumber(if stripped == "" then "0" else stripped, MAX_U32)
  }

  /** The release numbers; empty segments are skipped. */
  function ParseSegments(parts: seq<string>): Option<seq<nat>> {
    if parts == [] then Some([])
    else if parts[0] == "" then ParseSegments(parts[1..])
    else
      match ParseSegment(parts[0])
      case None => None
      case Some(n) =>
        match ParseSegments(parts[1..])
        case None => None
        case Some(ns) => Some([n] + ns)
  }

  function LoweredAll(parts: seq<string>): seq<string> {
    seq(|parts|, i requires 0 <= i < |parts| => Lowered(parts[i]))
  }

  function StripV(s: string): string {
    if s != "" && (s[0] == 'v' || s[0] == 'V') then s[1..] else s
  }

  /** The version without its local part. */
  function ParsePublic(epoch: nat, s: string, local: seq<string>): Option<VypVersion> {
    var dev := SplitDev(s);
    var post := SplitPost(dev.front);
    var (pre, front) := SplitPre(post.front, PRE_TAGS);
    match ParseSegments(Split(Dotted(front), '.'))
    case None => None
    case Some(release) =>
      if release == [] then None else Some(VypVersion(epoch, release, pre, post.number, dev.number, local))
  }

  function ParseRest(epoch: nat, s: string): Option<VypVersion> {
    match Find(s, "+")
    case Some(i) => ParsePublic(epoch, s[..i], LoweredAll(Split(s[i + 1..], '.')))
    case None => ParsePublic(epoch, s, [])
  }

  /** `None` stands for the error "invalid version string". */
  function Parse(input: string): Option<VypVersion> {
    var s := StripV(Trim(input));
    match Find(s, "!")
    case None => ParseRest(0, s)
    case Some(i) =>
      match ParseNumber(s[..i], MAX_U32)
      case None => None
      case Some(epoch) => ParseRest(epoch, s[i + 1..])
  }
}
