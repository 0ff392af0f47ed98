/** The parser for versions: it takes the parts off the end of the text one by one. */
module VersionParsing {
  import opened Numerals
  import opened Options
  import opened Texts
  import opened Versions

  /** Look for the tags in their order; the first that marks a pre-release is taken off. */
  method TakePre(s: string) returns (pre: Option<PreRelease>, front: string)
    ensures (pre, front) == SplitPre(s, PRE_TAGS)
  {
    pre, front := None, s;
    var i := 0;
    while i < |PRE_TAGS|
      invariant 0 <= i <= |PRE_TAGS| && pre == None && front == s
      invariant SplitPre(s, PRE_TAGS) == SplitPre(s, PRE_TAGS[i..])
    {
      assert PRE_TAGS[i..][1..] == PRE_TAGS[i + 1..];
      match PreAt(s, PRE_TAGS[i])
      case Some((p, f)) =>
        return Some(p), f;
      case None =>
        i := i + 1;
    }
  }

  method TakeSegments(s: string) returns (release: Option<seq<nat>>)
    ensures release == ParseSegments(Split(Dotted(s), '.'))
  {
    var parts := Split(Dotted(s), '.');
    var numbers: seq<nat> := [];
    assert parts[0..] == parts && forall ns: seq<nat> :: numbers + ns == ns;
    for i := 0 to |parts|
      invariant ParseSegments(parts) == match ParseSegments(parts[i..])
                                        case None => None
                                        case Some(ns) => Some(numbers + ns)
    {
      assert parts[i..][1..] == parts[i + 1..];
      if parts[i] != "" {
        match ParseSegment(parts[i])
        case None => return None;
        case Some(n) =>
          assert forall ns: seq<nat> :: numbers + ([n] + ns) == (numbers + [n]) + ns;
          numbers := numbers + [n];
      }
    }
    assert parts[|parts|..] == [] && numbers + [] == numbers;
    return Some(numbers);
  }

  method ParseVersion(input: string) returns (version: Option<VypVersion>)
    ensures version == Parse(input)
  {
    hide SplitDev, SplitPost, SplitPre, ParseSegments, StripV, Trim, Find, LoweredAll, ParseNumber, Split, Dotted;
    var s := StripV(Trim(input));
    var epoch := 0;
    var rest := s;
    match Find(s, "!") {
      case Some(i) =>
        match ParseNumber(s[..i], MAX_U32) {
          case None => return None;
          case Some(n) => epoch := n;
        }
        rest := s[i + 1..];
      case None =>
    }
    var publicPart, local := rest, [];
    match Find(rest, "+") {
      case Some(i) =>
        local := LoweredAll(Split(rest[i + 1..], '.'));
        publicPart := rest[..i];
      case None =>
    }
    var dev := SplitDev(publicPart);
    var post := SplitPost(dev.front);
    var pre, front := TakePre(post.front);
    var release := TakeSegments(front);
    if release.None? || release.value == [] {
      return None;
    }
    return Some(VypVersion(epoch, release.value, pre, post.number, dev.number, local));
  }
}
