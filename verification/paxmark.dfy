/**
 This module models the PaX mark tool: a constant table of five marks, the
 builder that turns the options given on the command line into the
 five-character `user.pax.flags` value, and the decision between printing
 usage and writing that value to the target file.
 */
module PaxMark {

  /** One row of the mark table: the option letter that disables the mark and
      the option letter that enables it. The help text is presentation only. */
  datatype Flag = Flag(disable: char, enable: char)

  /** Name of the extended attribute the value is written under. */
  const UserPaxFlags: string := "user.pax.flags"

  /** The option letter that requests help (`-h` or `--help`). */
  const HelpOption: char := 'h'

  /** PAGEEXEC, EMUTRAMP, MPROTECT, RANDMMAP, SEGMEXEC, in table order. */
  const FlagTable: seq<Flag> := [
    Flag('p', 'P'),
    Flag('e', 'E'),
    Flag('m', 'M'),
    Flag('r', 'R'),
    Flag('s', 'S')
  ]

  predicate IsUpper(c: char) { 'A' <= c <= 'Z' }

  predicate IsLower(c: char) { 'a' <= c <= 'z' }

  function ToLower(c: char): char
    requires IsUpper(c)
  {
    (c as int - 'A' as int + 'a' as int) as char
  }

  /** Every enable letter is an upper-case letter whose lower case is the
      disable letter, and no two rows share an enable letter. */
  ghost predicate WellFormedTable(t: seq<Flag>)
  {
    && (forall i :: 0 <= i < |t| ==> IsUpper(t[i].enable) && t[i].disable == ToLower(t[i].enable))
    && (forall i, j :: 0 <= i < j < |t| ==> t[i].enable != t[j].enable)
  }

  /** The disable letters of a table. */
  ghost function DisableLetters(t: seq<Flag>): set<char>
  {
    set i | 0 <= i < |t| :: t[i].disable
  }

  /** The enable letters of a table. */
  ghost function EnableLetters(t: seq<Flag>): set<char>
  {
    set i | 0 <= i < |t| :: t[i].enable
  }

  /** A value in the image of the builder: one character per row, each either
      that row's disable letter or its enable letter. */
  ghost predicate WellFormedFlags(t: seq<Flag>, s: string)
  {
    |s| == |t| && forall i :: 0 <= i < |t| ==> s[i] == t[i].disable || s[i] == t[i].enable
  }

  /** Reads back which marks a value disables: its lower-case characters. */
  ghost function DecodeDisabled(s: string): set<char>
  {
    set i | 0 <= i < |s| && IsLower(s[i]) :: s[i]
  }

  /** The character one row contributes to the value. */
  function FlagChar(f: Flag, present: set<char>): char
  {
    if f.disable in present then f.disable else f.enable
  }

  /** Walks a table in order and emits one character per row: the disable
      letter when that option is present, the enable letter otherwise. */
  function BuildWith(t: seq<Flag>, present: set<char>): (r: string)
    ensures |r| == |t|
    ensures forall i :: 0 <= i < |t| ==> (t[i].disable in present ==> r[i] == t[i].disable)
    ensures forall i :: 0 <= i < |t| ==> (t[i].disable !in present ==> r[i] == t[i].enable)
  {
    if |t| == 0 then []
    else [FlagChar(t[0], present)] + BuildWith(t[1..], present)
  }

  /** The value written to `user.pax.flags` for the given options. */
  function BuildFlags(present: set<char>): (r: string)
    ensures |r| == 5
    ensures forall i :: 0 <= i < 5 ==> (r[i] == FlagTable[i].disable <==> FlagTable[i].disable in present)
    ensures forall i :: 0 <= i < 5 ==> (FlagTable[i].disable !in present ==> r[i] == FlagTable[i].enable)
    ensures forall i :: 0 <= i < 5 ==> (IsLower(r[i]) <==> FlagTable[i].disable in present)
  {
    BuildWith(FlagTable, present)
  }

  /** The loop of `main` that pushes one character per table row. */
  method BuildFlagsLoop(present: set<char>) returns (flags: string)
    ensures flags == BuildFlags(present)
    ensures |flags| == |FlagTable|
  {
    flags := "";
    var i := 0;
    while i < |FlagTable|
      invariant 0 <= i <= |FlagTable|
      invariant |flags| == i
      invariant forall k :: 0 <= k < i ==> flags[k] == FlagChar(FlagTable[k], present)
    {
      var flag := FlagTable[i];
      if flag.disable in present {
        flags := flags + [flag.disable];
        i := i + 1;
        continue;
      }
      flags := flags + [flag.enable];
      i := i + 1;
    }
    BuildWithIsFlagChars(FlagTable, present, flags);
  }

  /** A string agreeing with `FlagChar` at every row is the built value. */
  lemma {:induction false} BuildWithIsFlagChars(t: seq<Flag>, present: set<char>, s: string)
    requires |s| == |t|
    requires forall k :: 0 <= k < |t| ==> s[k] == FlagChar(t[k], present)
    ensures s == BuildWith(t, present)
  {
    if |t| > 0 {
      BuildWithIsFlagChars(t[1..], present, s[1..]);
      assert s == [s[0]] + s[1..];
    }
  }

  /** The table of the tool satisfies the case convention and has distinct
      marks. */
  lemma FlagTableWellFormed()
    ensures WellFormedTable(FlagTable)
    ensures DisableLetters(FlagTable) == {'p', 'e', 'm', 'r', 's'}
    ensures EnableLetters(FlagTable) == {'P', 'E', 'M', 'R', 'S'}
  {
    assert FlagTable[0].disable == 'p' && FlagTable[1].disable == 'e' && FlagTable[2].disable == 'm'
      && FlagTable[3].disable == 'r' && FlagTable[4].disable == 's';
    assert FlagTable[0].enable == 'P' && FlagTable[1].enable == 'E' && FlagTable[2].enable == 'M'
      && FlagTable[3].enable == 'R' && FlagTable[4].enable == 'S';
  }

  /** With no disable option the value is all marks enabled. */
  lemma DefaultIsAllEnabled(present: set<char>)
    requires present !! DisableLetters(FlagTable)
    ensures BuildFlags(present) == "PEMRS"
  {
    var r := BuildFlags(present);
    forall i | 0 <= i < 5 ensures r[i] == FlagTable[i].enable {
      assert FlagTable[i].disable in DisableLetters(FlagTable);
    }
    assert r[0] == 'P' && r[1] == 'E' && r[2] == 'M' && r[3] == 'R' && r[4] == 'S';
  }

  /** The value depends only on which disable options are present. */
  lemma {:induction false} OnlyDisableOptionsMatter(t: seq<Flag>, a: set<char>, b: set<char>)
    requires a * DisableLetters(t) == b * DisableLetters(t)
    ensures BuildWith(t, a) == BuildWith(t, b)
  {
    if |t| > 0 {
      assert t[0].disable in DisableLetters(t);
      assert DisableLetters(t[1..]) <= DisableLetters(t) by {
        forall c | c in DisableLetters(t[1..]) ensures c in DisableLetters(t) {
          var i :| 0 <= i < |t[1..]| && t[1..][i].disable == c;
          assert t[i + 1].disable == c;
        }
      }
      assert a * DisableLetters(t[1..]) == b * DisableLetters(t[1..]) by {
        forall c | c in DisableLetters(t[1..]) ensures c in a <==> c in b {
          assert c in a * DisableLetters(t) <==> c in b * DisableLetters(t);
        }
      }
      assert FlagChar(t[0], a) == FlagChar(t[0], b) by {
        assert t[0].disable in a <==> t[0].disable in b by {
          assert t[0].disable in a * DisableLetters(t) <==> t[0].disable in b * DisableLetters(t);
        }
      }
      OnlyDisableOptionsMatter(t[1..], a, b);
    }
  }

  /** Enable options are accepted but never consulted: adding or removing any
      of them leaves the value unchanged. */
  lemma EnableOptionsIgnored(present: set<char>, enables: set<char>)
    requires enables <= EnableLetters(FlagTable)
    ensures BuildFlags(present + enables) == BuildFlags(present)
    ensures BuildFlags(present - enables) == BuildFlags(present)
  {
    FlagTableWellFormed();
    OnlyDisableOptionsMatter(FlagTable, present + enables, present);
    OnlyDisableOptionsMatter(FlagTable, present - enables, present);
  }

  /** When both letters of a mark are given, the disable letter wins. */
  lemma DisableWinsOverEnable(present: set<char>, i: nat)
    requires i < 5
    requires FlagTable[i].disable in present && FlagTable[i].enable in present
    ensures BuildFlags(present)[i] == FlagTable[i].disable
  {
  }

  /** Under a well-formed table, the lower-case character of a value belongs
      to the row whose disable letter it is. */
  lemma LowerCharIdentifiesRow(t: seq<Flag>, s: string, c: char) returns (i: nat)
    requires WellFormedTable(t) && WellFormedFlags(t, s)
    requires c in DecodeDisabled(s)
    ensures i < |t| && s[i] == c && c == t[i].disable
  {
    var j :| 0 <= j < |s| && IsLower(s[j]) && s[j] == c;
    assert !IsUpper(c);
    i := j;
  }

  /** Round trip: the marks read back from a built value are exactly the
      disable options that were present. */
  lemma {:induction false} DecodeBuild(t: seq<Flag>, present: set<char>)
    requires WellFormedTable(t)
    ensures DecodeDisabled(BuildWith(t, present)) == present * DisableLetters(t)
  {
    var r := BuildWith(t, present);
    assert WellFormedFlags(t, r) by {
      forall i | 0 <= i < |t| ensures r[i] == t[i].disable || r[i] == t[i].enable {
      }
    }
    forall c | c in DecodeDisabled(r) ensures c in present * DisableLetters(t) {
      var i := LowerCharIdentifiesRow(t, r, c);
    }
    forall c | c in present * DisableLetters(t) ensures c in DecodeDisabled(r) {
      var i :| 0 <= i < |t| && t[i].disable == c;
      assert r[i] == c;
      assert IsLower(r[i]);
    }
  }

  /** Round trip the other way: rebuilding from the marks a well-formed value
      disables gives back that value. */
  lemma {:induction false} BuildDecode(t: seq<Flag>, s: string)
    requires WellFormedTable(t) && WellFormedFlags(t, s)
    ensures BuildWith(t, DecodeDisabled(s)) == s
  {
    var d := DecodeDisabled(s);
    forall k | 0 <= k < |t| ensures s[k] == FlagChar(t[k], d) {
      if t[k].disable in d {
        var i := LowerCharIdentifiesRow(t, s, t[k].disable);
        assert t[i].enable == t[k].enable;
        assert i == k;
      } else if s[k] == t[k].disable {
        assert IsLower(s[k]);
        assert false;
      }
    }
    BuildWithIsFlagChars(t, d, s);
  }

  /** Case encodes state: a character of the value is upper case exactly when
      its mark is enabled, and the disabled marks are recovered exactly. */
  lemma FlagsRoundTrip(present: set<char>)
    ensures DecodeDisabled(BuildFlags(present)) == present * DisableLetters(FlagTable)
    ensures forall i :: 0 <= i < 5 ==> (IsUpper(BuildFlags(present)[i]) <==> FlagTable[i].disable !in present)
  {
    FlagTableWellFormed();
    DecodeBuild(FlagTable, present);
  }

  /** What one run of the tool does. */
  datatype Outcome =
    | Usage
    | Write(target: string, key: string, value: string)

  /** The control decision of `main`: help prints usage, a missing target
      prints usage, otherwise the value is written to the first free
      argument. */
  function Decide(present: set<char>, free: seq<string>): (o: Outcome)
    ensures o.Write? <==> HelpOption !in present && |free| > 0
    ensures o.Write? ==> o.target == free[0] && o.key == "user.pax.flags"
    ensures o.Write? ==> o.value == BuildFlags(present) && |o.value| == 5
    ensures o.Write? ==> forall i :: 0 <= i < 5 ==>
      (o.value[i] == FlagTable[i].disable <==> FlagTable[i].disable in present)
  {
    if HelpOption in present then Usage
    else
      var flags := BuildFlags(present);
      if |free| == 0 then Usage
      else Write(free[0], UserPaxFlags, flags)
  }

  /** Help wins over every other option and over any target. */
  lemma HelpOverridesAll(present: set<char>, free: seq<string>)
    requires HelpOption in present
    ensures Decide(present, free) == Usage
  {
  }

  /** Free arguments after the first are ignored. */
  lemma ExtraFreeArgumentsIgnored(present: set<char>, target: string, rest: seq<string>)
    ensures Decide(present, [target] + rest) == Decide(present, [target])
  {
  }

  /** The value written is the built value, and the disabled marks can be read
      back from it. */
  lemma WrittenValueDecodes(present: set<char>, free: seq<string>)
    requires Decide(present, free).Write?
    ensures Decide(present, free).value == BuildFlags(present)
    ensures DecodeDisabled(Decide(present, free).value) == present * DisableLetters(FlagTable)
  {
    FlagsRoundTrip(present);
  }
}
