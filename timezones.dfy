/**
 * The fixed table of twenty display time zones (``get_timezones``) and the
 * substring lookup ``get_gmt`` that maps what a user typed or picked to the
 * first zone key containing it.
 */
module Timezones {
  import opened Wrappers

  /** Zone key and its UTC offset, in dictionary (insertion) order. */
  const Table: seq<(string, string)> := [
    ("Africa/Lagos", "+01:00"),
    ("Africa/Johannesburg", "+02:00"),
    ("Africa/Nairobi", "+03:00"),
    ("America/Buenos_Aires", "-03:00"),
    ("America/Chicago", "-05:00"),
    ("America/Los_Angeles", "-08:00"),
    ("America/New_York", "-04:00"),
    ("America/Santiago", "-04:00"),
    ("America/Sao_Paulo", "-03:00"),
    ("Asia/Dubai", "+04:00"),
    ("Asia/Perth", "+08:00"),
    ("Asia/Shanghai", "+08:00"),
    ("Asia/Tokyo", "+09:00"),
    ("Australia/Brisbane", "+10:00"),
    ("Australia/Melbourne", "+10:00"),
    ("Australia/Perth", "+08:00"),
    ("Australia/Sydney", "+10:00"),
    ("Europe/Berlin", "+02:00"),
    ("Europe/London", "+01:00"),
    ("Europe/Paris", "+02:00")]

  /** Python's ``zone in get_timezones()``: the argument is one of the keys. */
  predicate IsKey(zone: string) {
    exists i :: 0 <= i < |Table| && Table[i].0 == zone
  }

  /** Python's ``part in s`` on strings: ``part`` is a substring of ``s``. */
  predicate Occurs(part: string, s: string) {
    exists o :: 0 <= o <= |s| - |part| && MatchesAt(part, s, o)
  }

  /** ``part`` appears in ``s`` starting at offset ``o``. */
  predicate MatchesAt(part: string, s: string, o: int) {
    0 <= o <= |s| - |part| && s[o..o + |part|] == part
  }

  lemma OccursAt(part: string, s: string, o: int)
    requires MatchesAt(part, s, o)
    ensures Occurs(part, s)
  {
  }

  /** The first key at or after position ``i`` that contains ``zone``. */
  function GetGmtFrom(zone: string, i: nat): (r: Option<string>)
    requires i <= |Table|
    ensures r.None? <==> forall j :: i <= j < |Table| ==> !Occurs(zone, Table[j].0)
    ensures r.Some? ==> exists j :: i <= j < |Table| && Table[j].0 == r.value && Occurs(zone, Table[j].0) &&
                                    forall k :: i <= k < j ==> !Occurs(zone, Table[k].0)
    decreases |Table| - i
  {
    if i == |Table| then None
    else if Occurs(zone, Table[i].0) then Some(Table[i].0)
    else GetGmtFrom(zone, i + 1)
  }

  /**
   * ``get_gmt``: the first key of the table, in table order, of which
   * ``zone`` is a substring; None when no key contains it.
   */
  function GetGmt(zone: string): (r: Option<string>)
    ensures r.None? <==> forall j :: 0 <= j < |Table| ==> !Occurs(zone, Table[j].0)
    ensures r.Some? ==> exists j :: 0 <= j < |Table| && Table[j].0 == r.value && Occurs(zone, Table[j].0) &&
                                    forall k :: 0 <= k < j ==> !Occurs(zone, Table[k].0)
  {
    GetGmtFrom(zone, 0)
  }

  /*
   * Certificate that no key is a substring of another key. Every key holds
   * exactly one '/', so an occurrence of one key inside another lines the two
   * slashes up; after that alignment the two keys differ at the first
   * character, or at the first or third character after the slash.
   */

  /** Position of the only '/' in each key. */
  ghost const SlashAt: seq<int> := [6, 6, 6, 7, 7, 7, 7, 7, 7, 4, 4, 4, 4, 9, 9, 9, 9, 6, 6, 6]

  ghost predicate SoleSlash(s: string, q: int) {
    0 <= q < |s| && s[q] == '/' && forall i :: 0 <= i < |s| && s[i] == '/' ==> i == q
  }

  /** With the slashes aligned, ``p`` does not fit inside ``s`` or differs from it. */
  ghost predicate Misaligned(p: string, s: string, qp: int, qs: int) {
    var o := qs - qp;
    0 <= qp < |p| &&
    (o < 0 || o + |p| > |s| || s[o] != p[0] ||
     (qp + 1 < |p| && s[o + qp + 1] != p[qp + 1]) ||
     (qp + 3 < |p| && s[o + qp + 3] != p[qp + 3]))
  }

  lemma NotNested(p: string, s: string, qp: int, qs: int)
    requires SoleSlash(p, qp) && SoleSlash(s, qs) && Misaligned(p, s, qp, qs)
    ensures !Occurs(p, s)
  {
    if o :| 0 <= o <= |s| - |p| && MatchesAt(p, s, o) {
      assert s[o + qp] == p[qp];
      assert o == qs - qp;
      assert s[o] == p[0];
      assert qp + 1 < |p| ==> s[o + qp + 1] == p[qp + 1];
      assert qp + 3 < |p| ==> s[o + qp + 3] == p[qp + 3];
    }
  }
  lemma Slash0() ensures SoleSlash(Table[0].0, 6) {}
  lemma Slash1() ensures SoleSlash(Table[1].0, 6) {}
  lemma Slash2() ensures SoleSlash(Table[2].0, 6) {}
  lemma Slash3() ensures SoleSlash(Table[3].0, 7) {}
  lemma Slash4() ensures SoleSlash(Table[4].0, 7) {}
  lemma Slash5() ensures SoleSlash(Table[5].0, 7) {}
  lemma Slash6() ensures SoleSlash(Table[6].0, 7) {}
  lemma Slash7() ensures SoleSlash(Table[7].0, 7) {}
  lemma Slash8() ensures SoleSlash(Table[8].0, 7) {}
  lemma Slash9() ensures SoleSlash(Table[9].0, 4) {}
  lemma Slash10() ensures SoleSlash(Table[10].0, 4) {}
  lemma Slash11() ensures SoleSlash(Table[11].0, 4) {}
  lemma Slash12() ensures SoleSlash(Table[12].0, 4) {}
  lemma Slash13() ensures SoleSlash(Table[13].0, 9) {}
  lemma Slash14() ensures SoleSlash(Table[14].0, 9) {}
  lemma Slash15() ensures SoleSlash(Table[15].0, 9) {}
  lemma Slash16() ensures SoleSlash(Table[16].0, 9) {}
  lemma Slash17() ensures SoleSlash(Table[17].0, 6) {}
  lemma Slash18() ensures SoleSlash(Table[18].0, 6) {}
  lemma Slash19() ensures SoleSlash(Table[19].0, 6) {}

  lemma KeysHaveOneSlash()
    ensures forall i :: 0 <= i < |Table| ==> SoleSlash(Table[i].0, SlashAt[i])
  {
    forall i | 0 <= i < |Table| ensures SoleSlash(Table[i].0, SlashAt[i]) {
      if i == 0 { Slash0(); }
      else if i == 1 { Slash1(); }
      else if i == 2 { Slash2(); }
      else if i == 3 { Slash3(); }
      else if i == 4 { Slash4(); }
      else if i == 5 { Slash5(); }
      else if i == 6 { Slash6(); }
      else if i == 7 { Slash7(); }
      else if i == 8 { Slash8(); }
      else if i == 9 { Slash9(); }
      else if i == 10 { Slash10(); }
      else if i == 11 { Slash11(); }
      else if i == 12 { Slash12(); }
      else if i == 13 { Slash13(); }
      else if i == 14 { Slash14(); }
      else if i == 15 { Slash15(); }
      else if i == 16 { Slash16(); }
      else if i == 17 { Slash17(); }
      else if i == 18 { Slash18(); }
      else if i == 19 { Slash19(); }
    }
  }

  lemma NoKeyInside0()
    ensures forall i :: 0 <= i < |Table| && i != 0 ==> !Occurs(Table[i].0, Table[0].0)
  {
    KeysHaveOneSlash();
    forall i | 0 <= i < |Table| && i != 0 ensures !Occurs(Table[i].0, Table[0].0) {
      NotNested(Table[i].0, Table[0].0, SlashAt[i], SlashAt[0]);
    }
  }

  lemma NoKeyInside1()
    ensures forall i :: 0 <= i < |Table| && i != 1 ==> !Occurs(Table[i].0, Table[1].0)
  {
    KeysHaveOneSlash();
    forall i | 0 <= i < |Table| && i != 1 ensures !Occurs(Table[i].0, Table[1].0) {
      NotNested(Table[i].0, Table[1].0, SlashAt[i], SlashAt[1]);
    }
  }

  lemma NoKeyInside2()
    ensures forall i :: 0 <= i < |Table| && i != 2 ==> !Occurs(Table[i].0, Table[2].0)
  {
    KeysHaveOneSlash();
    forall i | 0 <= i < |Table| && i != 2 ensures !Occurs(Table[i].0, Table[2].0) {
      NotNested(Table[i].0, Table[2].0, SlashAt[i], SlashAt[2]);
    }
  }

  lemma NoKeyInside3()
    ensures forall i :: 0 <= i < |Table| && i != 3 ==> !Occurs(Table[i].0, Table[3].0)
  {
    KeysHaveOneSlash();
    forall i | 0 <= i < |Table| && i != 3 ensures !Occurs(Table[i].0, Table[3].0) {
      NotNested(Table[i].0, Table[3].0, SlashAt[i], SlashAt[3]);
    }
  }

  lemma NoKeyInside4()
    ensures forall i :: 0 <= i < |Table| && i != 4 ==> !Occurs(Table[i].0, Table[4].0)
  {
    KeysHaveOneSlash();
    forall i | 0 <= i < |Table| && i != 4 ensures !Occurs(Table[i].0, Table[4].0) {
      NotNested(Table[i].0, Table[4].0, SlashAt[i], SlashAt[4]);
    }
  }

  lemma NoKeyInside5()
    ensures forall i :: 0 <= i < |Table| && i != 5 ==> !Occurs(Table[i].0, Table[5].0)
  {
    KeysHaveOneSlash();
    forall i | 0 <= i < |Table| && i != 5 ensures !Occurs(Table[i].0, Table[5].0) {
      NotNested(Table[i].0, Table[5].0, SlashAt[i], SlashAt[5]);
    }
  }

  lemma NoKeyInside6()
    ensures forall i :: 0 <= i < |Table| && i != 6 ==> !Occurs(Table[i].0, Table[6].0)
  {
    KeysHaveOneSlash();
    forall i | 0 <= i < |Table| && i != 6 ensures !Occurs(Table[i].0, Table[6].0) {
      NotNested(Table[i].0, Table[6].0, SlashAt[i], SlashAt[6]);
    }
  }

  lemma NoKeyInside7()
    ensures forall i :: 0 <= i < |Table| && i != 7 ==> !Occurs(Table[i].0, Table[7].0)
  {
    KeysHaveOneSlash();
    forall i | 0 <= i < |Table| && i != 7 ensures !Occurs(Table[i].0, Table[7].0) {
      NotNested(Table[i].0, Table[7].0, SlashAt[i], SlashAt[7]);
    }
  }

  lemma NoKeyInside8()
    ensures forall i :: 0 <= i < |Table| && i != 8 ==> !Occurs(Table[i].0, Table[8].0)
  {
    KeysHaveOneSlash();
    forall i | 0 <= i < |Table| && i != 8 ensures !Occurs(Table[i].0, Table[8].0) {
      NotNested(Table[i].0, Table[8].0, SlashAt[i], SlashAt[8]);
    }
  }

  lemma NoKeyInside9()
    ensures forall i :: 0 <= i < |Table| && i != 9 ==> !Occurs(Table[i].0, Table[9].0)
  {
    KeysHaveOneSlash();
    forall i | 0 <= i < |Table| && i != 9 ensures !Occurs(Table[i].0, Table[9].0) {
      NotNested(Table[i].0, Table[9].0, SlashAt[i], SlashAt[9]);
    }
  }

  lemma NoKeyInside10()
    ensures forall i :: 0 <= i < |Table| && i != 10 ==> !Occurs(Table[i].0, Table[10].0)
  {
    KeysHaveOneSlash();
    forall i | 0 <= i < |Table| && i != 10 ensures !Occurs(Table[i].0, Table[10].0) {
      NotNested(Table[i].0, Table[10].0, SlashAt[i], SlashAt[10]);
    }
  }

  lemma NoKeyInside11()
    ensures forall i :: 0 <= i < |Table| && i != 11 ==> !Occurs(Table[i].0, Table[11].0)
  {
    KeysHaveOneSlash();
    forall i | 0 <= i < |Table| && i != 11 ensures !Occurs(Table[i].0, Table[11].0) {
      NotNested(Table[i].0, Table[11].0, SlashAt[i], SlashAt[11]);
    }
  }

  lemma NoKeyInside12()
    ensures forall i :: 0 <= i < |Table| && i != 12 ==> !Occurs(Table[i].0, Table[12].0)
  {
    KeysHaveOneSlash();
    forall i | 0 <= i < |Table| && i != 12 ensures !Occurs(Table[i].0, Table[12].0) {
      NotNested(Table[i].0, Table[12].0, SlashAt[i], SlashAt[12]);
    }
  }

  lemma NoKeyInside13()
    ensures forall i :: 0 <= i < |Table| && i != 13 ==> !Occurs(Table[i].0, Table[13].0)
  {
    KeysHaveOneSlash();
    forall i | 0 <= i < |Table| && i != 13 ensures !Occurs(Table[i].0, Table[13].0) {
      NotNested(Table[i].0, Table[13].0, SlashAt[i], SlashAt[13]);
    }
  }

  lemma NoKeyInside14()
    ensures forall i :: 0 <= i < |Table| && i != 14 ==> !Occurs(Table[i].0, Table[14].0)
  {
    KeysHaveOneSlash();
    forall i | 0 <= i < |Table| && i != 14 ensures !Occurs(Table[i].0, Table[14].0) {
      NotNested(Table[i].0, Table[14].0, SlashAt[i], SlashAt[14]);
    }
  }

  lemma NoKeyInside15()
    ensures forall i :: 0 <= i < |Table| && i != 15 ==> !Occurs(Table[i].0, Table[15].0)
  {
    KeysHaveOneSlash();
    forall i | 0 <= i < |Table| && i != 15 ensures !Occurs(Table[i].0, Table[15].0) {
      NotNested(Table[i].0, Table[15].0, SlashAt[i], SlashAt[15]);
    }
  }

  lemma NoKeyInside16()
    ensures forall i :: 0 <= i < |Table| && i != 16 ==> !Occurs(Table[i].0, Table[16].0)
  {
    KeysHaveOneSlash();
    forall i | 0 <= i < |Table| && i != 16 ensures !Occurs(Table[i].0, Table[16].0) {
      NotNested(Table[i].0, Table[16].0, SlashAt[i], SlashAt[16]);
    }
  }

  lemma NoKeyInside17()
    ensures forall i :: 0 <= i < |Table| && i != 17 ==> !Occurs(Table[i].0, Table[17].0)
  {
    KeysHaveOneSlash();
    forall i | 0 <= i < |Table| && i != 17 ensures !Occurs(Table[i].0, Table[17].0) {
      NotNested(Table[i].0, Table[17].0, SlashAt[i], SlashAt[17]);
    }
  }

  lemma NoKeyInside18()
    ensures forall i :: 0 <= i < |Table| && i != 18 ==> !Occurs(Table[i].0, Table[18].0)
  {
    KeysHaveOneSlash();
    forall i | 0 <= i < |Table| && i != 18 ensures !Occurs(Table[i].0, Table[18].0) {
      NotNested(Table[i].0, Table[18].0, SlashAt[i], SlashAt[18]);
    }
  }

  lemma NoKeyInside19()
    ensures forall i :: 0 <= i < |Table| && i != 19 ==> !Occurs(Table[i].0, Table[19].0)
  {
    KeysHaveOneSlash();
    forall i | 0 <= i < |Table| && i != 19 ensures !Occurs(Table[i].0, Table[19].0) {
      NotNested(Table[i].0, Table[19].0, SlashAt[i], SlashAt[19]);
    }
  }

  /** No key of the table is a substring of a different key. */
  lemma KeysNotNested()
    ensures forall i, j :: 0 <= i < |Table| && 0 <= j < |Table| && i != j ==> !Occurs(Table[i].0, Table[j].0)
  {
    NoKeyInside0();
    NoKeyInside1();
    NoKeyInside2();
    NoKeyInside3();
    NoKeyInside4();
    NoKeyInside5();
    NoKeyInside6();
    NoKeyInside7();
    NoKeyInside8();
    NoKeyInside9();
    NoKeyInside10();
    NoKeyInside11();
    NoKeyInside12();
    NoKeyInside13();
    NoKeyInside14();
    NoKeyInside15();
    NoKeyInside16();
    NoKeyInside17();
    NoKeyInside18();
    NoKeyInside19();
  }

  /** The table has twenty distinct keys, each mapped to an offset of the form ``+HH:MM`` or ``-HH:MM``. */
  lemma TableShape()
    ensures |Table| == 20
    ensures forall i, j :: 0 <= i < j < |Table| ==> Table[i].0 != Table[j].0
    ensures forall i :: 0 <= i < |Table| ==> OffsetShaped(Table[i].1)
  {
    KeysNotNested();
    forall i, j | 0 <= i < j < |Table| ensures Table[i].0 != Table[j].0 {
      if Table[i].0 == Table[j].0 {
        OccursAt(Table[i].0, Table[j].0, 0);
      }
    }
    forall i | 0 <= i < |Table| ensures OffsetShaped(Table[i].1) {
      if i == 0 {}
      else if i == 1 {}
      else if i == 2 {}
      else if i == 3 {}
      else if i == 4 {}
      else if i == 5 {}
      else if i == 6 {}
      else if i == 7 {}
      else if i == 8 {}
      else if i == 9 {}
      else if i == 10 {}
      else if i == 11 {}
      else if i == 12 {}
      else if i == 13 {}
      else if i == 14 {}
      else if i == 15 {}
      else if i == 16 {}
      else if i == 17 {}
      else if i == 18 {}
      else if i == 19 {}
    }
  }

  predicate OffsetShaped(off: string) {
    |off| == 6 && (off[0] == '+' || off[0] == '-') && off[3] == ':' &&
    forall k :: 0 <= k < 6 && k != 0 && k != 3 ==> '0' <= off[k] <= '9'
  }

  /** A key is found by ``get_gmt`` as itself, because no earlier key contains it. */
  lemma GetGmtOfKey(zone: string)
    requires IsKey(zone)
    ensures GetGmt(zone) == Some(zone)
  {
    var i :| 0 <= i < |Table| && Table[i].0 == zone;
    OccursAt(zone, zone, 0);
    KeysNotNested();
  }

  /** The empty string is a substring of every key, so it selects the first key. */
  lemma GetGmtOfEmpty()
    ensures GetGmt("") == Some("Africa/Lagos")
  {
    OccursAt("", Table[0].0, 0);
  }

  /** ``get_gmt`` never invents a zone: a result is always a key of the table. */
  lemma GetGmtIsKey(zone: string)
    requires GetGmt(zone).Some?
    ensures IsKey(GetGmt(zone).value) && Occurs(zone, GetGmt(zone).value)
  {
  }

  /** The last key among the first ``n`` that contains ``zone``. */
  function LastContaining(zone: string, n: nat): (r: Option<string>)
    requires n <= |Table|
    ensures r.None? <==> forall j :: 0 <= j < n ==> !Occurs(zone, Table[j].0)
    ensures r.Some? ==> exists j :: 0 <= j < n && Table[j].0 == r.value && Occurs(zone, Table[j].0) &&
                                    forall k :: j < k < n ==> !Occurs(zone, Table[k].0)
  {
    if n == 0 then None
    else if Occurs(zone, Table[n - 1].0) then Some(Table[n - 1].0)
    else LastContaining(zone, n - 1)
  }

  /** For a stored key the last containing key and the first one agree: both are the key itself. */
  lemma LastContainingKey(zone: string)
    requires IsKey(zone)
    ensures LastContaining(zone, |Table|) == Some(zone) == GetGmt(zone)
  {
    var i :| 0 <= i < |Table| && Table[i].0 == zone;
    OccursAt(zone, zone, 0);
    KeysNotNested();
    GetGmtOfKey(zone);
  }
}
