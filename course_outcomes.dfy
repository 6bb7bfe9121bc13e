/** The outcomes field of the admin course form
    (app/modules/courses/app/admin/page.tsx): comma-separated text becomes
    `text.split(',').map((item) => item.trim()).filter(Boolean)`. */
module CourseOutcomes {
  import opened Shared

  /** Each piece trimmed. */
  function TrimAll(parts: seq<string>): (r: seq<string>)
    ensures |r| == |parts|
    ensures forall k :: 0 <= k < |r| ==> r[k] == Trim(parts[k])
    decreases |parts|
  {
    if parts == [] then [] else [Trim(parts[0])] + TrimAll(parts[1..])
  }

  /** `filter(Boolean)` on strings: the non-empty pieces, in order. */
  function DropEmpty(parts: seq<string>): (r: seq<string>)
    ensures forall k :: 0 <= k < |r| ==> r[k] != "" && r[k] in parts
    ensures forall k :: 0 <= k < |parts| && parts[k] != "" ==> parts[k] in r
    decreases |parts|
  {
    if parts == [] then []
    else
      var rest := DropEmpty(parts[1..]);
      assert forall k :: 1 <= k < |parts| ==> parts[k] == parts[1..][k - 1];
      (if parts[0] == "" then [] else [parts[0]]) + rest
  }

  /** The outcomes list typed as comma-separated text: every non-blank piece,
      trimmed; no outcome is empty, has whitespace at either end or contains a
      comma. */
  function ParseOutcomes(text: string): (r: seq<string>)
    ensures forall k :: 0 <= k < |r| ==> r[k] != "" && IsTrimmed(r[k]) && ',' !in r[k]
  {
    var pieces := Split(text, ',');
    var trimmed := TrimAll(pieces);
    TrimmedPiecesCommaFree(pieces, trimmed);
    DropEmpty(trimmed)
  }

  lemma TrimmedPiecesCommaFree(pieces: seq<string>, trimmed: seq<string>)
    requires forall k :: 0 <= k < |pieces| ==> ',' !in pieces[k]
    requires |trimmed| == |pieces| && forall k :: 0 <= k < |trimmed| ==> trimmed[k] == Trim(pieces[k])
    ensures forall k :: 0 <= k < |trimmed| ==> IsTrimmed(trimmed[k]) && ',' !in trimmed[k]
  {
    forall k | 0 <= k < |trimmed| ensures ',' !in trimmed[k] {
      forall m | 0 <= m < |trimmed[k]| ensures trimmed[k][m] != ',' {
        assert trimmed[k][m] in pieces[k];
      }
    }
  }

  lemma TrimSkipsSpace(x: string)
    ensures Trim(" " + x) == Trim(x)
  {
    assert (" " + x)[1..] == x;
  }

  /** A leading space on the first piece changes nothing once trimmed. */
  lemma TrimAllSkipsSpace(t: string)
    ensures TrimAll(Split(" " + t, ',')) == TrimAll(Split(t, ','))
  {
    var s := " " + t;
    assert s[1..] == t;
    var rest := Split(t, ',');
    assert Split(s, ',') == [[' '] + rest[0]] + rest[1..];
    TrimSkipsSpace(rest[0]);
    assert rest == [rest[0]] + rest[1..];
  }

  lemma TrimAllCons(a: string, rest: seq<string>)
    ensures TrimAll([a] + rest) == [Trim(a)] + TrimAll(rest)
  {
    assert ([a] + rest)[1..] == rest;
  }

  lemma DropEmptyCons(a: string, rest: seq<string>)
    requires a != ""
    ensures DropEmpty([a] + rest) == [a] + DropEmpty(rest)
  {
    assert ([a] + rest)[1..] == rest;
  }

  lemma TrimOfTrimmed(a: string)
    requires IsTrimmed(a)
    ensures Trim(a) == a
  {
    TrimLeadingWhitespace([], a);
    assert [] + a == a;
  }

  /** `filter` keeps order: filtering a concatenation filters each part. */
  lemma {:induction false} DropEmptyAppend(a: seq<string>, b: seq<string>)
    ensures DropEmpty(a + b) == DropEmpty(a) + DropEmpty(b)
    decreases |a|
  {
    if a == [] {
      assert a + b == b;
    } else {
      assert (a + b)[0] == a[0];
      assert (a + b)[1..] == a[1..] + b;
      DropEmptyAppend(a[1..], b);
    }
  }

  /** A single piece is kept exactly when it is non-empty. */
  lemma DropEmptySingle(x: string)
    ensures DropEmpty([x]) == (if x == "" then [] else [x])
  {
    assert [x][1..] == [];
  }

  /** A comma-free text is one outcome, its trimmed self, or none when it is
      blank. */
  lemma ParseOutcomesOfItem(a: string)
    requires ',' !in a
    ensures ParseOutcomes(a) == (if Trim(a) == "" then [] else [Trim(a)])
  {
    SplitNoSeparator(a, ',');
    TrimAllCons(a, []);
    DropEmptySingle(Trim(a));
  }

  /** Text before the first comma contributes its own outcomes, followed by
      those of the text after it. With `ParseOutcomesOfItem` this fixes the
      value of `ParseOutcomes` on every text. */
  lemma ParseOutcomesAppend(a: string, b: string)
    requires ',' !in a
    ensures ParseOutcomes(a + "," + b) == ParseOutcomes(a) + ParseOutcomes(b)
  {
    assert a + "," + b == a + [','] + b;
    SplitPrefix(a, b, ',');
    TrimAllCons(a, Split(b, ','));
    DropEmptyAppend([Trim(a)], TrimAll(Split(b, ',')));
    ParseOutcomesOfItem(a);
    DropEmptySingle(Trim(a));
  }

  /** One leading outcome followed by `", "` parses to that outcome followed by
      the rest. */
  lemma ParseOutcomesCons(a: string, t: string)
    requires a != "" && IsTrimmed(a) && ',' !in a
    ensures ParseOutcomes(a + ", " + t) == [a] + ParseOutcomes(t)
  {
    assert a + ", " + t == a + [','] + (" " + t);
    SplitPrefix(a, " " + t, ',');
    TrimAllCons(a, Split(" " + t, ','));
    TrimOfTrimmed(a);
    TrimAllSkipsSpace(t);
    DropEmptyCons(a, TrimAll(Split(t, ',')));
  }

  /** Outcomes written out comma-separated (`outcomes.join(', ')`) parse back to
      the same list, when each is non-empty, trimmed and comma-free. */
  lemma {:induction false} OutcomesRoundTrip(outcomes: seq<string>)
    requires forall k :: 0 <= k < |outcomes| ==> outcomes[k] != "" && IsTrimmed(outcomes[k]) && ',' !in outcomes[k]
    ensures ParseOutcomes(Join(outcomes, ", ")) == outcomes
    decreases |outcomes|
  {
    if outcomes == [] {
      assert Split("", ',') == [""];
      assert TrimAll([""]) == [""];
    } else if |outcomes| == 1 {
      var a := outcomes[0];
      SplitNoSeparator(a, ',');
      TrimOfTrimmed(a);
      assert TrimAll([a]) == [a];
      DropEmptyCons(a, []);
    } else {
      var tail := outcomes[1..];
      ParseOutcomesCons(outcomes[0], Join(tail, ", "));
      OutcomesRoundTrip(tail);
      assert outcomes == [outcomes[0]] + tail;
    }
  }

  /** Normalising twice is normalising once. */
  lemma ParseOutcomesIdempotent(text: string)
    ensures ParseOutcomes(Join(ParseOutcomes(text), ", ")) == ParseOutcomes(text)
  {
    OutcomesRoundTrip(ParseOutcomes(text));
  }
}
