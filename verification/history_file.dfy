/** Where the chat history and the configuration are written at shutdown. The
    history file is named after the local time of the save; it goes to the
    repository's `logs` directory when the program runs from its own checkout,
    and to the configuration directory (`~/.loz`) otherwise. */
module HistoryFile {
  import opened Maybe
  import opened Text

  /** The local date and time as the `Date` getters return them; `month` is
      zero-based like `getMonth()`. */
  datatype Moment = Moment(year: nat, month: nat, day: nat, hours: nat, minutes: nat, seconds: nat)

  const LogDevPath := "logs"
  const Extension := ".json"

  /** `Y-M-D-H-Mi-S.json`, the month shifted to one-based, no zero padding. */
  function FileName(m: Moment): (name: string)
    ensures |name| > |Extension| && name[|name| - |Extension|..] == Extension
  {
    NatToString(m.year) + "-" + NatToString(m.month + 1) + "-" + NatToString(m.day) + "-"
    + NatToString(m.hours) + "-" + NatToString(m.minutes) + "-" + NatToString(m.seconds) + Extension
  }

  /** Reads a history file name back into the moment it was saved. */
  function ParseFileName(name: string): Option<Moment> {
    if |name| < |Extension| || name[|name| - |Extension|..] != Extension then None
    else
      var parts := Split(name[..|name| - |Extension|], '-');
      if |parts| != 6 then None
      else
        var y, mo, d := ParseNat(parts[0]), ParseNat(parts[1]), ParseNat(parts[2]);
        var h, mi, s := ParseNat(parts[3]), ParseNat(parts[4]), ParseNat(parts[5]);
        if y.None? || mo.None? || d.None? || h.None? || mi.None? || s.None? || mo.value < 1 then None
        else Some(Moment(y.value, mo.value - 1, d.value, h.value, mi.value, s.value))
  }

  lemma NoDash(n: nat)
    ensures '-' !in NatToString(n)
  {
  }

  lemma {:induction false} JoinSix(a: string, b: string, c: string, d: string, e: string, f: string)
    ensures Join([a, b, c, d, e, f], '-') == a + "-" + b + "-" + c + "-" + d + "-" + e + "-" + f
  {
    var p := [a, b, c, d, e, f];
    assert p[1..] == [b, c, d, e, f];
    assert p[1..][1..] == [c, d, e, f];
    assert p[1..][1..][1..] == [d, e, f];
    assert p[1..][1..][1..][1..] == [e, f];
    assert p[1..][1..][1..][1..][1..] == [f];
    assert Join([f], '-') == f;
    assert Join([e, f], '-') == e + "-" + f;
    assert Join([d, e, f], '-') == d + "-" + (e + "-" + f);
    assert Join([c, d, e, f], '-') == c + "-" + (d + "-" + (e + "-" + f));
    assert Join([b, c, d, e, f], '-') == b + "-" + (c + "-" + (d + "-" + (e + "-" + f)));
  }

  /** The name of a history file determines the moment it was saved. */
  lemma ParseFileNameRoundTrip(m: Moment)
    ensures ParseFileName(FileName(m)) == Some(m)
  {
    var parts := [NatToString(m.year), NatToString(m.month + 1), NatToString(m.day),
                  NatToString(m.hours), NatToString(m.minutes), NatToString(m.seconds)];
    JoinSix(parts[0], parts[1], parts[2], parts[3], parts[4], parts[5]);
    var stem := Join(parts, '-');
    var name := FileName(m);
    assert name == stem + Extension;
    assert name[..|name| - |Extension|] == stem;
    assert name[|name| - |Extension|..] == Extension;
    NoDash(m.year); NoDash(m.month + 1); NoDash(m.day);
    NoDash(m.hours); NoDash(m.minutes); NoDash(m.seconds);
    SplitJoin(parts, '-');
    ParseNatToString(m.year); ParseNatToString(m.month + 1); ParseNatToString(m.day);
    ParseNatToString(m.hours); ParseNatToString(m.minutes); ParseNatToString(m.seconds);
  }

  /** The converse: a name that reads back as a moment is exactly the name
      written for that moment, so zero-padded or otherwise respelled names are
      never produced and never accepted. */
  lemma ParsedNameIsFileName(name: string)
    requires ParseFileName(name).Some?
    ensures FileName(ParseFileName(name).value) == name
  {
    var m := ParseFileName(name).value;
    var stem := name[..|name| - |Extension|];
    var p := Split(stem, '-');
    NatToStringParseNat(p[0]); NatToStringParseNat(p[1]); NatToStringParseNat(p[2]);
    NatToStringParseNat(p[3]); NatToStringParseNat(p[4]); NatToStringParseNat(p[5]);
    assert NatToString(m.month + 1) == p[1];
    JoinSix(p[0], p[1], p[2], p[3], p[4], p[5]);
    assert p == [p[0], p[1], p[2], p[3], p[4], p[5]];
    JoinSplit(stem, '-');
    assert name == stem + name[|name| - |Extension|..];
  }

  /** Two saves at different moments never share a file name. */
  lemma FileNameInjective(m1: Moment, m2: Moment)
    requires FileName(m1) == FileName(m2)
    ensures m1 == m2
  {
    ParseFileNameRoundTrip(m1);
    ParseFileNameRoundTrip(m2);
  }

  /** A file path as a directory and a name within it. */
  datatype Location = Location(directory: string, name: string)

  /** Where the history saved at `m` goes. */
  function HistoryLocation(inDevRepo: bool, configDir: string, m: Moment): (l: Location)
    ensures l.directory == (if inDevRepo then LogDevPath else configDir)
    ensures ParseFileName(l.name) == Some(m)
  {
    ParseFileNameRoundTrip(m);
    Location(if inDevRepo then LogDevPath else configDir, FileName(m))
  }

  /** Where the configuration is saved: only when running from the program's own
      checkout, and then to the configuration directory, not to `logs`. */
  function ConfigLocation(inDevRepo: bool, configDir: string): (l: Option<Location>)
    ensures l.Some? <==> inDevRepo
    ensures l.Some? ==> l.value.directory == configDir
  {
    if inDevRepo then Some(Location(configDir, "config.json")) else None
  }
}
