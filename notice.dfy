/** The e-mail that `enviar_correo` sends: a fixed subject and a plain-text body
    listing the new activities, one per line, followed by the page address. */
module Notice {
  import opened Wrappers
  import opened Changes

  /** The activities page that is scraped and linked from every message. */
  const Url: string := "https://escaramuza.com.uy/agenda/actividades-en-escaramuza"

  /** The subject line ("new activities at Escaramuza", with a leading emoji). */
  const Subject: string := "\U{1F195} Nuevas actividades en Escaramuza"

  /** The text before the list ("new activities have been published"). */
  const Prefix: string := "Se han publicado nuevas actividades:\n\n"

  /** The text between the list and the address: a blank line and a pointing-hand emoji. */
  const Separator: string := "\n\n\U{1F449} "

  /** Python's `"\n".join(items)`. */
  function Join(items: seq<string>): string
  {
    if items == [] then ""
    else if |items| == 1 then items[0]
    else items[0] + "\n" + Join(items[1..])
  }

  /** Python's `text.split("\n")`: the pieces between line breaks, never an empty list. */
  function Split(text: string): (pieces: seq<string>)
    ensures |pieces| >= 1
  {
    if text == [] then [""]
    else if text[0] == '\n' then [""] + Split(text[1..])
    else
      var rest := Split(text[1..]);
      [[text[0]] + rest[0]] + rest[1..]
  }

  /** The message body of `enviar_correo(nuevas)`. */
  function Body(nuevas: seq<Activity>, url: string): (body: string)
    ensures |body| == |Prefix| + |Join(nuevas)| + |Separator| + |url|
    ensures body[..|Prefix|] == Prefix
    ensures body[|Prefix|..|Prefix| + |Join(nuevas)|] == Join(nuevas)
    ensures body[|body| - |Separator + url|..] == Separator + url
  {
    var body := Prefix + Join(nuevas) + Separator + url;
    assert body == Prefix + Join(nuevas) + (Separator + url);
    body
  }

  /** The message `enviar_correo` builds: a subject and a plain-text body. */
  datatype Mail = Mail(subject: string, body: string)

  /** The message for the new activities nuevas. */
  function Compose(nuevas: seq<Activity>): (m: Mail)
    ensures m.subject == Subject
    ensures forall x :: x in nuevas ==> Occurs(x, m.body)
    ensures nuevas != [] && (forall i :: 0 <= i < |nuevas| ==> '\n' !in nuevas[i]) ==>
      ParseBody(m.body, Url) == Some(nuevas)
  {
    var body := Body(nuevas, Url);
    assert forall x :: x in nuevas ==> Occurs(x, body) by {
      forall x | x in nuevas ensures Occurs(x, body) {
        BodyMentions(nuevas, Url, x);
      }
    }
    assert nuevas != [] && (forall i :: 0 <= i < |nuevas| ==> '\n' !in nuevas[i]) ==>
      ParseBody(body, Url) == Some(nuevas) by {
      if nuevas != [] && (forall i :: 0 <= i < |nuevas| ==> '\n' !in nuevas[i]) {
        BodyRoundTrip(nuevas, Url);
      }
    }
    Mail(Subject, body)
  }

  /** t occurs in s starting at position k. */
  predicate OccursAt(t: string, s: string, k: int)
  {
    0 <= k <= |s| - |t| && s[k..k + |t|] == t
  }

  /** t occurs in s as a contiguous piece. */
  ghost predicate Occurs(t: string, s: string)
  {
    exists k :: OccursAt(t, s, k)
  }

  /** A reading of a message body: the list between the fixed text and the address.
      It has no counterpart in the program; it exists to state that the body loses nothing. */
  function ParseBody(body: string, url: string): Option<seq<string>>
  {
    var tail := Separator + url;
    if |body| < |Prefix| + |tail| || body[..|Prefix|] != Prefix || body[|body| - |tail|..] != tail
    then None
    else Some(Split(body[|Prefix|..|body| - |tail|]))
  }

  /** Splitting a line followed by a break and more text gives the line, then the rest. */
  lemma {:induction false} SplitLine(line: string, rest: string)
    requires '\n' !in line
    ensures Split(line + "\n" + rest) == [line] + Split(rest)
  {
    if line == [] {
      assert line + "\n" + rest == "\n" + rest;
      assert ("\n" + rest)[1..] == rest;
    } else {
      SplitLine(line[1..], rest);
      assert (line + "\n" + rest)[1..] == line[1..] + "\n" + rest;
      assert [line[0]] + line[1..] == line;
    }
  }

  /** A text without line breaks splits into itself alone. */
  lemma {:induction false} SplitNoBreak(line: string)
    requires '\n' !in line
    ensures Split(line) == [line]
  {
    if line != [] {
      SplitNoBreak(line[1..]);
      assert [line[0]] + line[1..] == line;
    }
  }

  /** Joining with line breaks can be undone by splitting, as long as there is at
      least one item and no item contains a line break of its own. */
  lemma {:induction false} SplitJoin(items: seq<string>)
    requires items != []
    requires forall i :: 0 <= i < |items| ==> '\n' !in items[i]
    ensures Split(Join(items)) == items
  {
    if |items| == 1 {
      SplitNoBreak(items[0]);
    } else {
      SplitJoin(items[1..]);
      SplitLine(items[0], Join(items[1..]));
    }
  }

  /** The body names the new activities losslessly: reading it back yields exactly
      the list that was sent, under the same conditions as SplitJoin. */
  lemma BodyRoundTrip(nuevas: seq<Activity>, url: string)
    requires nuevas != []
    requires forall i :: 0 <= i < |nuevas| ==> '\n' !in nuevas[i]
    ensures ParseBody(Body(nuevas, url), url) == Some(nuevas)
  {
    var body := Body(nuevas, url);
    assert body[|Prefix|..|body| - |Separator + url|] == Join(nuevas);
    SplitJoin(nuevas);
  }

  /** Every item occurs in its join. */
  lemma {:induction false} JoinMentions(items: seq<string>, i: nat)
    requires i < |items|
    ensures Occurs(items[i], Join(items))
  {
    var j := Join(items);
    if i == 0 {
      assert OccursAt(items[0], j, 0);
    } else {
      JoinMentions(items[1..], i - 1);
      var t := items[i];
      var rest := Join(items[1..]);
      assert t == items[1..][i - 1];
      var k :| OccursAt(t, rest, k);
      var off := |items[0]| + 1;
      assert j == (items[0] + "\n") + rest;
      assert j[off + k..off + k + |t|] == rest[k..k + |t|];
      assert OccursAt(t, j, off + k);
    }
  }

  /** Every new activity appears, verbatim, in the body of the message. */
  lemma BodyMentions(nuevas: seq<Activity>, url: string, x: Activity)
    requires x in nuevas
    ensures Occurs(x, Body(nuevas, url))
  {
    var i :| 0 <= i < |nuevas| && nuevas[i] == x;
    JoinMentions(nuevas, i);
    var j := Join(nuevas);
    var body := Body(nuevas, url);
    var k :| OccursAt(x, j, k);
    assert body == Prefix + j + (Separator + url);
    assert body[|Prefix| + k..|Prefix| + k + |x|] == j[k..k + |x|];
    assert OccursAt(x, body, |Prefix| + k);
  }
}
