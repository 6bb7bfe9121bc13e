/** The avatar (components/ui/avatar.tsx): the initials taken from a display
    name, and the choice between the picture, the initials and the fallback
    icon. */
module Avatar {
  import opened Shared

  /** `toUpperCase` on one character, for the Latin letters a-z. */
  function UpperAscii(c: char): (u: char)
    ensures 'a' <= c <= 'z' ==> u as int == c as int - 32 && 'A' <= u <= 'Z'
    ensures !('a' <= c <= 'z') ==> u == c
  {
    if 'a' <= c <= 'z' then (c as int - 32) as char else c
  }

  /** `part.charAt(0).toUpperCase()`: empty for an empty part. */
  function FirstInitial(part: string): (r: string)
    ensures part == "" <==> r == ""
    ensures part != "" ==> r == [UpperAscii(part[0])]
  {
    if part == "" then "" else [UpperAscii(part[0])]
  }

  /** `.map((part) => part.charAt(0).toUpperCase())`. */
  function FirstInitials(parts: seq<string>): (r: seq<string>)
    ensures |r| == |parts|
    ensures forall k :: 0 <= k < |parts| ==> r[k] == FirstInitial(parts[k])
    decreases |parts|
  {
    if parts == [] then [] else [FirstInitial(parts[0])] + FirstInitials(parts[1..])
  }

  /** The initials: `""` for an empty or absent name, otherwise the upper-cased
      first characters of the first two space-separated parts, joined. */
  function Initials(name: Option<string>): (r: string)
    ensures name.None? || name.value == "" ==> r == ""
    ensures |r| <= 2
  {
    if name.None? || name.value == "" then ""
    else
      var mapped := FirstInitials(Split(name.value, ' '));
      var taken := if |mapped| <= 2 then mapped else mapped[..2];
      JoinShort(taken);
      Join(taken, "")
  }

  /** Joining at most two pieces of at most one character each. */
  lemma JoinShort(parts: seq<string>)
    requires |parts| <= 2 && forall k :: 0 <= k < |parts| ==> |parts[k]| <= 1
    ensures |Join(parts, "")| <= 2
    ensures |parts| == 2 ==> Join(parts, "") == parts[0] + parts[1]
    ensures |parts| == 1 ==> Join(parts, "") == parts[0]
  {
    if |parts| == 2 {
      assert parts[1..] == [parts[1]];
    }
  }

  /** The first two parts of a name decide its initials. */
  lemma InitialsOfParts(name: string)
    requires name != ""
    ensures var parts := Split(name, ' ');
      Initials(Some(name)) == FirstInitial(parts[0]) + (if |parts| >= 2 then FirstInitial(parts[1]) else "")
  {
    var parts := Split(name, ' ');
    var mapped := FirstInitials(parts);
    var taken := if |mapped| <= 2 then mapped else mapped[..2];
    JoinShort(taken);
  }

  /** A one-word name gives one letter. */
  lemma InitialsOfOneWord(a: string)
    requires a != "" && ' ' !in a
    ensures Initials(Some(a)) == [UpperAscii(a[0])]
  {
    SplitNoSeparator(a, ' ');
    InitialsOfParts(a);
  }

  /** A name of two or more words gives the first letters of the first two
      words; later words do not contribute. */
  lemma InitialsOfWords(a: string, b: string, rest: string)
    requires a != "" && ' ' !in a && b != "" && ' ' !in b
    ensures Initials(Some(a + " " + b)) == [UpperAscii(a[0]), UpperAscii(b[0])]
    ensures Initials(Some(a + " " + b + " " + rest)) == [UpperAscii(a[0]), UpperAscii(b[0])]
  {
    SplitPrefix(a, b, ' ');
    SplitNoSeparator(b, ' ');
    assert a + " " + b == a + [' '] + b;
    InitialsOfParts(a + " " + b);
    SplitPrefix(b, rest, ' ');
    SplitPrefix(a, b + [' '] + rest, ' ');
    assert a + " " + b + " " + rest == a + [' '] + (b + [' '] + rest);
    InitialsOfParts(a + " " + b + " " + rest);
  }

  /** An empty part contributes nothing: a leading space loses the first
      letter's place, and two leading spaces leave no initials at all. */
  lemma LeadingSpaces(a: string)
    requires a != "" && ' ' !in a
    ensures Initials(Some(" " + a)) == [UpperAscii(a[0])]
    ensures Initials(Some("  " + a)) == ""
  {
    SplitNoSeparator(a, ' ');
    SplitPrefix("", a, ' ');
    assert " " + a == "" + [' '] + a;
    InitialsOfParts(" " + a);
    SplitPrefix("", " " + a, ' ');
    assert "  " + a == "" + [' '] + (" " + a);
    InitialsOfParts("  " + a);
  }

  /** What the avatar shows. */
  datatype AvatarView = Picture(src: string, alt: string) | InitialsText(text: string) | FallbackIcon

  /** `src ? <img alt={alt ?? name ?? "Avatar"}> : initials ? initials : <User/>`. */
  function Render(src: Option<string>, alt: Option<string>, name: Option<string>): (v: AvatarView)
    ensures v.Picture? <==> src.Some? && src.value != ""
    ensures v.InitialsText? <==> (src.None? || src.value == "") && Initials(name) != ""
    ensures v.Picture? ==> v.src == src.value
    ensures v.Picture? ==> v.alt == alt.GetOr(name.GetOr("Avatar"))
    ensures v.InitialsText? ==> v.text == Initials(name) && |v.text| <= 2
  {
    if src.Some? && src.value != "" then Picture(src.value, alt.GetOr(name.GetOr("Avatar")))
    else
      var initials := Initials(name);
      if initials != "" then InitialsText(initials) else FallbackIcon
  }

  /** Without a picture or a name the icon is shown. The alternative text
      falls back only on absent values: an empty `alt` is kept as it is. */
  lemma RenderFallbacks(src: Option<string>, name: Option<string>)
    ensures (src.None? || src == Some("")) && (name.None? || name == Some("")) ==> Render(src, None, name) == FallbackIcon
    ensures src.Some? && src.value != "" ==> Render(src, None, None).alt == "Avatar"
    ensures src.Some? && src.value != "" ==> Render(src, Some(""), name).alt == ""
  {
  }
}
