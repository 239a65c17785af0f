/**
 A stored configuration is read back: `device_config_from_toml` inverts
 `device_config_to_toml`, and the text in between costs only the digits of a
 float past the fifteenth.
 */
module ProfilesTrip {
  import opened Wrappers
  import opened Decimal
  import opened TomlTree
  import opened TomlForm
  import opened Profiles

  // ---------------------------------------------------- what can be written

  /** Fields that were not set hold their defaults; keys are mapped once. */
  predicate ProfileStorable(km: Keymap, p: Profile) {
    && NulFree(p.name)
    && (!p.hasScroll ==> p.scroll == SCROLL_DEFAULT)
    && (!p.hasSens ==> p.sens == SENS_DEFAULT)
    && (!p.hasLpf ==> p.lpf == LPF_UNSET)
    && DistinctFrom(p.buttons) && MapValid(km, p.buttons)
  }

  predicate DistinctNames(ps: seq<Profile>) { forall i, j :: 0 <= i < j < |ps| ==> ps[i].name != ps[j].name }

  predicate Storable(km: Keymap, c: Config) {
    && km.Ok()
    && NulFree(c.profile)
    && (c.calib.Some? ==> c.calib.value != [] && NulFree(c.calib.value))
    && (!c.hasAirmouse ==> c.airmouse)
    && DistinctNames(c.profiles)
    && forall i :: 0 <= i < |c.profiles| ==> ProfileStorable(km, c.profiles[i])
  }

  predicate DecOk(d: Dec) { Normal(d) && InRange(d) }

  predicate NumbersOk(c: Config) {
    forall i :: 0 <= i < |c.profiles| ==>
      DecOk(c.profiles[i].scroll) && DecOk(c.profiles[i].sens) && DecOk(c.profiles[i].lpf)
  }

  // --------------------------------------------------------------- button maps

  lemma {:induction false} ReadMapSnoc(km: Keymap, ms: seq<Member>, m: Member, acc: seq<Entry>)
    ensures ReadMap(km, ms + [m], acc) ==
            match ReadMap(km, ms, acc) case None => None case Some(r) => ReadMap(km, [m], r)
    decreases |ms|
  {
    if ms == [] {
      assert [] + [m] == [m];
    } else {
      assert (ms + [m])[1..] == ms[1..] + [m] && (ms + [m])[0] == ms[0];
      if ms[0].value.Str? {
        var from, to := NameToCode(km.keys, ms[0].key), NameToCode(km.keys, ms[0].value.s);
        if from.Some? && to.Some? {
          ReadMapSnoc(km, ms[1..], m, SetButton(acc, from.value, to.value));
        }
      }
    }
  }

  lemma {:induction false} SetNewButton(buttons: seq<Entry>, from: int, to: int)
    requires forall i :: 0 <= i < |buttons| ==> buttons[i].from != from
    ensures SetButton(buttons, from, to) == buttons + [Entry(from, to)]
  {
    if buttons == [] {
    } else {
      SetNewButton(buttons[1..], from, to);
    }
  }

  /** Every name in the map belongs to one of its codes. */
  predicate NamedIn(km: Keymap, ms: seq<Member>, buttons: seq<Entry>) {
    forall i :: 0 <= i < |ms| ==> NameOf(km, ms[i].key, buttons)
  }

  predicate NameOf(km: Keymap, name: string, buttons: seq<Entry>) {
    exists j :: 0 <= j < |buttons| && CodeToName(km.keys, buttons[j].from) == Some(name)
  }

  lemma {:induction false} MapTrip(km: Keymap, buttons: seq<Entry>)
    requires km.Ok() && DistinctFrom(buttons) && MapValid(km, buttons)
    ensures MapMembers(km, buttons).Some?
    ensures var ms := MapMembers(km, buttons).value;
            MembersOk(ms) && Height(ms) == 0 && Canon(ms) == ms && NamedIn(km, ms, buttons)
            && ReadMap(km, ms, []) == Some(buttons)
    decreases |buttons|
  {
    if buttons == [] {
    } else {
      var n := |buttons| - 1;
      var before, e := buttons[..n], buttons[n];
      MapTrip(km, before);
      var ms := MapMembers(km, before).value;
      var from, to := CodeToName(km.keys, e.from).value, CodeToName(km.keys, e.to).value;
      KeymapBijection(km, e.from, from);
      KeymapBijection(km, e.to, to);
      NewName(km, ms, before, e.from, from);
      var m := Member(from, Str(to));
      ReadMapSnoc(km, ms, m, []);
      SetNewButton(before, e.from, e.to);
      assert [m][1..] == [] && before + [e] == buttons;
      hide ReadMap, Canon, Height;
      AppendScalar(ms, m);
      NamedSnoc(km, ms, m, before, e);
    }
  }

  lemma NamedSnoc(km: Keymap, ms: seq<Member>, m: Member, buttons: seq<Entry>, e: Entry)
    requires NamedIn(km, ms, buttons) && CodeToName(km.keys, e.from) == Some(m.key)
    ensures NamedIn(km, ms + [m], buttons + [e])
  {
    var all := buttons + [e];
    forall i | 0 <= i < |ms + [m]|
      ensures NameOf(km, (ms + [m])[i].key, all)
    {
      if i < |ms| {
        assert NameOf(km, ms[i].key, buttons);
        var j :| 0 <= j < |buttons| && CodeToName(km.keys, buttons[j].from) == Some(ms[i].key);
        assert all[j] == buttons[j];
      } else {
        assert all[|buttons|] == e;
      }
    }
  }

  /** A code not mapped yet brings a name not used yet. */
  lemma NewName(km: Keymap, ms: seq<Member>, buttons: seq<Entry>, code: int, name: string)
    requires km.Ok() && NamedIn(km, ms, buttons) && CodeToName(km.keys, code) == Some(name)
    requires forall j :: 0 <= j < |buttons| ==> buttons[j].from != code
    ensures !Has(ms, name)
  {
    if Has(ms, name) {
      var i := IndexOf(ms, name);
      assert NameOf(km, ms[i].key, buttons);
      var j :| 0 <= j < |buttons| && CodeToName(km.keys, buttons[j].from) == Some(ms[i].key);
      KeymapBijection(km, code, name);
      KeymapBijection(km, buttons[j].from, name);
    }
  }

  /** Appending a scalar that rounding does not change. */
  lemma AppendScalar(ms: seq<Member>, m: Member)
    requires MembersOk(ms) && Canon(ms) == ms && Height(ms) == 0 && !Has(ms, m.key)
    requires NulFree(m.key) && ValueOk(m.value) && m.value.Str?
    ensures MembersOk(ms + [m]) && Canon(ms + [m]) == ms + [m] && Height(ms + [m]) == 0
  {
    OkSnoc(ms, m);
    HeightSnoc(ms, m);
    CanonSnocScalar(ms, m);
    FlatCanon(ms);
  }

  lemma OkSnoc(ms: seq<Member>, m: Member)
    requires MembersOk(ms) && !Has(ms, m.key) && NulFree(m.key) && ValueOk(m.value)
    ensures MembersOk(ms + [m])
  {
    hide NulFree, ValueOk;
    var all := ms + [m];
    assert forall i :: 0 <= i < |ms| ==> all[i] == ms[i];
    assert forall i :: 0 <= i < |ms| ==> ms[i].key != m.key;
  }

  lemma {:induction false} HeightSnoc(ms: seq<Member>, m: Member)
    ensures Height(ms + [m]) ==
            var h := if m.value.Table? then 1 + Height(m.value.members) else 0;
            if h > Height(ms) then h else Height(ms)
    decreases |ms|
  {
    var all := ms + [m];
    if ms == [] {
      assert all == [m] && all[1..] == [];
      assert Height([m][1..]) == 0;
    } else {
      assert all[1..] == ms[1..] + [m] && all[0] == ms[0];
      HeightSnoc(ms[1..], m);
    }
  }

  lemma {:induction false} CanonSnocScalar(ms: seq<Member>, m: Member)
    requires !m.value.Table?
    ensures CanonScalars(ms + [m]) == CanonScalars(ms) + [Member(m.key, RoundValue(m.value))]
    ensures CanonTables(ms + [m]) == CanonTables(ms)
    decreases |ms|
  {
    var all := ms + [m];
    if ms == [] {
      CanonOfOne(m);
      assert all == [m];
    } else {
      assert all[1..] == ms[1..] + [m] && all[0] == ms[0];
      CanonSnocScalar(ms[1..], m);
      CanonCons(ms);
      CanonCons(all);
      hide CanonScalars, CanonTables, Canon, RoundValue;
      Assoc(FirstScalar(ms[0]), CanonScalars(ms[1..]), [Member(m.key, RoundValue(m.value))]);
    }
  }

  lemma {:induction false} CanonSnocTable(ms: seq<Member>, m: Member)
    requires m.value.Table?
    ensures CanonTables(ms + [m]) == CanonTables(ms) + [Member(m.key, Table(Canon(m.value.members)))]
    ensures CanonScalars(ms + [m]) == CanonScalars(ms)
    decreases |ms|
  {
    var all := ms + [m];
    if ms == [] {
      CanonOfOne(m);
      assert all == [m];
    } else {
      assert all[1..] == ms[1..] + [m] && all[0] == ms[0];
      CanonSnocTable(ms[1..], m);
      CanonCons(ms);
      CanonCons(all);
      hide CanonScalars, CanonTables, Canon, RoundValue;
      Assoc(FirstTable(ms[0]), CanonTables(ms[1..]), [Member(m.key, Table(Canon(m.value.members)))]);
    }
  }

  function FirstScalar(m: Member): seq<Member> { if m.value.Table? then [] else [Member(m.key, RoundValue(m.value))] }

  function FirstTable(m: Member): seq<Member> {
    if m.value.Table? then [Member(m.key, Table(Canon(m.value.members)))] else []
  }

  lemma CanonCons(ms: seq<Member>)
    requires ms != []
    ensures CanonScalars(ms) == FirstScalar(ms[0]) + CanonScalars(ms[1..])
    ensures CanonTables(ms) == FirstTable(ms[0]) + CanonTables(ms[1..])
  {
    hide RoundValue, Canon;
  }

  lemma CanonOfOne(m: Member)
    ensures CanonScalars([m]) == FirstScalar(m) && CanonTables([m]) == FirstTable(m)
    ensures CanonScalars([]) == [] && CanonTables([]) == []
  {
    hide RoundValue, Canon;
    assert [m][1..] == [];
    assert FirstScalar(m) + [] == FirstScalar(m) && FirstTable(m) + [] == FirstTable(m);
  }

  lemma Assoc(a: seq<Member>, b: seq<Member>, c: seq<Member>)
    ensures (a + b) + c == a + (b + c)
  {}

  lemma {:induction false} FlatCanon(ms: seq<Member>)
    requires Height(ms) == 0
    ensures CanonTables(ms) == [] && Canon(ms) == CanonScalars(ms)
    decreases |ms|
  {
    if ms == [] {
    } else {
      FlatCanon(ms[1..]);
    }
  }

  // ------------------------------------------------------------ profile tables

  function RoundProfile(p: Profile): Profile {
    p.(scroll := if p.hasScroll then Round15(p.scroll) else p.scroll,
       sens := if p.hasSens then Round15(p.sens) else p.sens,
       lpf := if p.hasLpf then Round15(p.lpf) else p.lpf)
  }

  /** The numeric members of a profile table. */
  function NumMembers(p: Profile): seq<Member> {
    NumMember(p.hasScroll, K_SCROLL, p.scroll) + NumMember(p.hasSens, K_SENS, p.sens)
    + NumMember(p.hasLpf, K_LPF, p.lpf)
  }

  lemma NumKeysDiffer()
    ensures K_SCROLL != K_SENS && K_SCROLL != K_LPF && K_SCROLL != K_MAP
    ensures K_SENS != K_LPF && K_SENS != K_MAP && K_LPF != K_MAP
  {
    assert |K_SCROLL| == 12 && |K_SENS| == 11 && |K_LPF| == 9 && |K_MAP| == 10;
  }

  lemma FindOne(m: Member, key: string)
    ensures Find([m], key) == if m.key == key then Some(m.value) else None
  {
    FindCons(m, [], key);
    assert [m] + [] == [m];
  }

  lemma FindNum(has: bool, k: string, d: Dec, key: string)
    ensures Find(NumMember(has, k, d), key) == if has && k == key then Some(Float(d)) else None
  {
    FindOne(Member(k, Float(d)), key);
  }

  /** What a lookup finds among the numeric members. */
  lemma FindNums(p: Profile, key: string)
    ensures Find(NumMembers(p), key) ==
            if key == K_SCROLL && p.hasScroll then Some(Float(p.scroll))
            else if key == K_SENS && p.hasSens then Some(Float(p.sens))
            else if key == K_LPF && p.hasLpf then Some(Float(p.lpf))
            else None
  {
    NumKeysDiffer();
    hide NumMember, IndexOf;
    var a, b, c := NumMember(p.hasScroll, K_SCROLL, p.scroll), NumMember(p.hasSens, K_SENS, p.sens),
      NumMember(p.hasLpf, K_LPF, p.lpf);
    FindNum(p.hasScroll, K_SCROLL, p.scroll, key);
    FindNum(p.hasSens, K_SENS, p.sens, key);
    FindNum(p.hasLpf, K_LPF, p.lpf, key);
    FindConcat(a, b, key);
    FindConcat(a + b, c, key);
  }

  lemma FindFirst(a: seq<Member>, m: Member, key: string)
    ensures Find(a + [m], key) == if Has(a, key) then Find(a, key) else if m.key == key then Some(m.value) else None
  {
    FindConcat(a, [m], key);
    FindOne(m, key);
  }

  lemma NoWords(key: string)
    requires key == K_SCROLL || key == K_SENS || key == K_LPF || key == K_MAP
    ensures NulFree(key)
  {}

  lemma NumMemberOk(has: bool, k: string, d: Dec, ms: seq<Member>)
    requires NulFree(k) && DecOk(d) && MembersOk(ms) && !Has(ms, k) && Height(ms) == 0
    ensures MembersOk(ms + NumMember(has, k, d)) && Height(ms + NumMember(has, k, d)) == 0
    ensures CanonScalars(ms + NumMember(has, k, d)) == CanonScalars(ms) + NumMember(has, k, Round15(d))
  {
    hide MembersOk, Height, Round15, CanonScalars;
    if has {
      OkSnoc(ms, Member(k, Float(d)));
      HeightSnoc(ms, Member(k, Float(d)));
      CanonSnocScalar(ms, Member(k, Float(d)));
    } else {
      assert ms + [] == ms && CanonScalars(ms) + [] == CanonScalars(ms);
    }
  }

  lemma FirstNumOk(has: bool, k: string, d: Dec)
    requires NulFree(k) && DecOk(d)
    ensures MembersOk(NumMember(has, k, d)) && Height(NumMember(has, k, d)) == 0
    ensures CanonScalars(NumMember(has, k, d)) == NumMember(has, k, Round15(d))
  {
    assert MembersOk([]) && Height([]) == 0 && CanonScalars([]) == [];
    hide MembersOk, Height, CanonScalars, NumMember, DecOk, Round15, NulFree;
    NumMemberOk(has, k, d, []);
    assert [] + NumMember(has, k, d) == NumMember(has, k, d);
    assert [] + NumMember(has, k, Round15(d)) == NumMember(has, k, Round15(d));
  }

  /** No key of the numeric members is one of an earlier member. */
  lemma NumsApart(p: Profile)
    ensures var a, b := NumMember(p.hasScroll, K_SCROLL, p.scroll), NumMember(p.hasSens, K_SENS, p.sens);
            !Has(a, K_SENS) && !Has(a + b, K_LPF) && !Has(NumMembers(p), K_MAP)
  {
    NumKeysDiffer();
    FindNums(p, K_MAP);
    FindNum(p.hasScroll, K_SCROLL, p.scroll, K_SENS);
    FindNum(p.hasScroll, K_SCROLL, p.scroll, K_LPF);
    FindNum(p.hasSens, K_SENS, p.sens, K_LPF);
    hide NumMember, IndexOf;
    FindConcat(NumMember(p.hasScroll, K_SCROLL, p.scroll), NumMember(p.hasSens, K_SENS, p.sens), K_LPF);
  }

  lemma NumsOk(p: Profile)
    requires DecOk(p.scroll) && DecOk(p.sens) && DecOk(p.lpf)
    ensures MembersOk(NumMembers(p)) && Height(NumMembers(p)) == 0
    ensures CanonScalars(NumMembers(p)) == NumMembers(RoundProfile(p))
    ensures !Has(NumMembers(p), K_MAP)
  {
    NumsApart(p);
    NoWords(K_SCROLL);
    NoWords(K_SENS);
    NoWords(K_LPF);
    var a, b := NumMember(p.hasScroll, K_SCROLL, p.scroll), NumMember(p.hasSens, K_SENS, p.sens);
    hide MembersOk, Height, CanonScalars, NumMember, DecOk, Round15, IndexOf, NulFree, Has;
    FirstNumOk(p.hasScroll, K_SCROLL, p.scroll);
    NumMemberOk(p.hasSens, K_SENS, p.sens, a);
    NumMemberOk(p.hasLpf, K_LPF, p.lpf, a + b);
    NumMemberRound(p.hasScroll, K_SCROLL, p.scroll);
    NumMemberRound(p.hasSens, K_SENS, p.sens);
    NumMemberRound(p.hasLpf, K_LPF, p.lpf);
  }

  lemma NumMemberRound(has: bool, k: string, d: Dec)
    ensures NumMember(has, k, Round15(d)) == NumMember(has, k, if has then Round15(d) else d)
  {}

  /** A profile's table by its parts. */
  lemma ProfileParts(km: Keymap, p: Profile)
    ensures ProfileMembers(km, p) ==
            if p.buttons == [] then Some(NumMembers(p))
            else match MapMembers(km, p.buttons)
              case None => None
              case Some(b) => Some(NumMembers(p) + [Member(K_MAP, Table(b))])
  {
    hide NumMember, MapMembers;
  }

  lemma ReadProfileOf(km: Keymap, p: Profile, t: seq<Member>)
    requires ProfileStorable(km, p)
    requires Find(t, K_SCROLL) == if p.hasScroll then Some(Float(p.scroll)) else None
    requires Find(t, K_SENS) == if p.hasSens then Some(Float(p.sens)) else None
    requires Find(t, K_LPF) == if p.hasLpf then Some(Float(p.lpf)) else None
    requires p.buttons == [] ==> Find(t, K_MAP) == None
    requires p.buttons != [] ==> (Find(t, K_MAP).Some? && Find(t, K_MAP).value.Table?
                                  && ReadMap(km, Find(t, K_MAP).value.members, []) == Some(p.buttons))
    ensures ReadProfile(km, p.name, t) == Some(p)
  {
    hide Find, ReadMap, NulFree, DistinctFrom, MapValid;
  }

  /** Reading a profile's table gives the profile back. */
  lemma ProfileTrip(km: Keymap, p: Profile)
    requires km.Ok() && ProfileStorable(km, p)
    ensures ProfileMembers(km, p).Some?
    ensures ReadProfile(km, p.name, ProfileMembers(km, p).value) == Some(p)
  {
    NumKeysDiffer();
    hide ProfileMembers, ReadProfile, NumMembers, IndexOf, MapMembers, ReadMap, DistinctFrom, MapValid, NulFree;
    FindNums(p, K_SCROLL);
    FindNums(p, K_SENS);
    FindNums(p, K_LPF);
    FindNums(p, K_MAP);
    ProfileParts(km, p);
    var nums := NumMembers(p);
    if p.buttons != [] {
      MapTrip(km, p.buttons);
      var m := Member(K_MAP, Table(MapMembers(km, p.buttons).value));
      FindFirst(nums, m, K_SCROLL);
      FindFirst(nums, m, K_SENS);
      FindFirst(nums, m, K_LPF);
      FindFirst(nums, m, K_MAP);
    }
    ReadProfileOf(km, p, ProfileMembers(km, p).value);
  }

  /** A profile's table is well formed, and its canonical form is the table
      of the rounded profile. */
  lemma ProfileForm(km: Keymap, p: Profile)
    requires km.Ok() && ProfileStorable(km, p) && DecOk(p.scroll) && DecOk(p.sens) && DecOk(p.lpf)
    ensures ProfileMembers(km, p).Some?
    ensures var t := ProfileMembers(km, p).value;
            MembersOk(t) && Height(t) <= 1
            && ProfileMembers(km, RoundProfile(p)) == Some(Canon(t))
  {
    hide *;
    var nums, r := NumMembers(p), RoundProfile(p);
    SameButtons(p);
    ProfileParts(km, p);
    ProfileParts(km, r);
    NumsOk(p);
    FlatCanon(nums);
    if p.buttons != [] {
      ButtonsOk(km, p);
      MapTrip(km, p.buttons);
      var b := MapMembers(km, p.buttons).value;
      var m := Member(K_MAP, Table(b));
      NoWords(K_MAP);
      TableOk(m.value);
      OkSnoc(nums, m);
      HeightSnoc(nums, m);
      CanonSnocTable(nums, m);
      CanonIs(nums + [m]);
      assert [] + [m] == [m];
    }
  }

  lemma SameButtons(p: Profile)
    ensures RoundProfile(p).buttons == p.buttons
  {}

  lemma ButtonsOk(km: Keymap, p: Profile)
    requires ProfileStorable(km, p)
    ensures DistinctFrom(p.buttons) && MapValid(km, p.buttons)
  {}

  lemma CanonIs(ms: seq<Member>)
    ensures Canon(ms) == CanonScalars(ms) + CanonTables(ms)
  {}

  lemma TableOk(v: Value)
    requires v.Table? && MembersOk(v.members)
    ensures ValueOk(v)
  {}

  // ------------------------------------------------------------- all profiles

  lemma {:induction false} ReadProfilesSnoc(km: Keymap, ms: seq<Member>, m: Member, ps: seq<Profile>)
    ensures var r := ReadProfiles(km, ms, ps);
            ReadProfiles(km, ms + [m], ps) == if r.0 then ReadProfiles(km, [m], r.1) else r
    decreases |ms|
  {
    hide ReadProfile, ProfileValid;
    var all := ms + [m];
    if ms == [] {
      assert all == [m];
    } else {
      assert all[1..] == ms[1..] + [m] && all[0] == ms[0];
      if ms[0].value.Table? && !HasProfile(ps, ms[0].key) {
        var p := ReadProfile(km, ms[0].key, ms[0].value.members);
        if p.Some? {
          ReadProfilesSnoc(km, ms[1..], m, ps + [p.value]);
        }
      }
    }
  }

  /** The keys of the table are the names of the profiles. */
  predicate NamesOf(ms: seq<Member>, ps: seq<Profile>) {
    |ms| == |ps| && forall i :: 0 <= i < |ms| ==> ms[i].key == ps[i].name
  }

  predicate AllStorable(km: Keymap, ps: seq<Profile>) {
    forall i :: 0 <= i < |ps| ==> ProfileStorable(km, ps[i])
  }

  predicate AllValid(km: Keymap, ps: seq<Profile>) {
    forall i :: 0 <= i < |ps| ==> ProfileValid(km, ps[i])
  }

  lemma NewNames(ms: seq<Member>, ps: seq<Profile>, name: string)
    requires NamesOf(ms, ps) && forall i :: 0 <= i < |ps| ==> ps[i].name != name
    ensures !Has(ms, name) && !HasProfile(ps, name)
  {}

  /** Reading the profile table succeeds exactly when every profile is valid,
      and then gives all of them. */
  lemma {:induction false} AllProfilesTrip(km: Keymap, ps: seq<Profile>)
    requires km.Ok() && AllStorable(km, ps) && DistinctNames(ps)
    ensures AllProfileMembers(km, ps).Some?
    ensures var ms := AllProfileMembers(km, ps).value;
            NamesOf(ms, ps)
            && (ReadProfiles(km, ms, []).0 <==> AllValid(km, ps))
            && (AllValid(km, ps) ==> ReadProfiles(km, ms, []).1 == ps)
    decreases |ps|
  {
    hide ProfileMembers, ReadProfile, ProfileValid, ProfileStorable;
    if ps == [] {
    } else {
      var n := |ps| - 1;
      var before, p := ps[..n], ps[n];
      assert before + [p] == ps;
      AllProfilesTrip(km, before);
      ProfileTrip(km, p);
      var ms := AllProfileMembers(km, before).value;
      NewNames(ms, before, p.name);
      var m := Member(p.name, Table(ProfileMembers(km, p).value));
      ReadProfilesSnoc(km, ms, m, []);
      LastProfile(km, m, before, p);
      assert AllValid(km, ps) <==> AllValid(km, before) && ProfileValid(km, p);
    }
  }

  lemma LastProfile(km: Keymap, m: Member, ps: seq<Profile>, p: Profile)
    requires m.value.Table? && m.key == p.name && ReadProfile(km, m.key, m.value.members) == Some(p)
    requires !HasProfile(ps, p.name)
    ensures ReadProfiles(km, [m], ps) == if ProfileValid(km, p) then (true, ps + [p]) else (false, ps)
  {
    hide ReadProfile, ProfileValid, ProfileIndex;
    assert [m][1..] == [];
  }

  function RoundAll(ps: seq<Profile>): (rs: seq<Profile>)
    ensures |rs| == |ps| && forall i :: 0 <= i < |ps| ==> rs[i] == RoundProfile(ps[i])
  {
    if ps == [] then [] else RoundAll(ps[..|ps| - 1]) + [RoundProfile(ps[|ps| - 1])]
  }

  predicate AllDecOk(ps: seq<Profile>) {
    forall i :: 0 <= i < |ps| ==> DecOk(ps[i].scroll) && DecOk(ps[i].sens) && DecOk(ps[i].lpf)
  }

  /** The table of all profiles by its last one. */
  lemma AllProfilesLast(km: Keymap, ps: seq<Profile>)
    requires ps != []
    ensures var n := |ps| - 1;
            AllProfileMembers(km, ps) ==
            match AllProfileMembers(km, ps[..n])
            case None => None
            case Some(ms) =>
              match ProfileMembers(km, ps[n])
              case None => None
              case Some(t) => if Has(ms, ps[n].name) then None else Some(ms + [Member(ps[n].name, Table(t))])
  {
    hide ProfileMembers, IndexOf;
  }

  lemma {:induction false} AllProfilesForm(km: Keymap, ps: seq<Profile>)
    requires km.Ok() && AllStorable(km, ps) && DistinctNames(ps) && AllDecOk(ps)
    ensures AllProfileMembers(km, ps).Some?
    ensures var ms := AllProfileMembers(km, ps).value;
            NamesOf(ms, ps) && MembersOk(ms) && Height(ms) <= 2 && CanonScalars(ms) == []
            && AllProfileMembers(km, RoundAll(ps)) == Some(CanonTables(ms))
    decreases |ps|
  {
    hide *;
    if ps == [] {
      NoProfiles(km);
    } else {
      var n := |ps| - 1;
      var before, p := ps[..n], ps[n];
      FirstProfiles(km, ps);
      AllProfilesForm(km, before);
      ProfileForm(km, p);
      AllProfilesLast(km, ps);
      var ms := AllProfileMembers(km, before).value;
      NewNames(ms, before, p.name);
      var m := Member(p.name, Table(ProfileMembers(km, p).value));
      TableOk(m.value);
      OkSnoc(ms, m);
      HeightSnoc(ms, m);
      CanonSnocTable(ms, m);
      NamesSnoc(ms, m, before, p);
      assert before + [p] == ps;
      RoundAllLast(ps);
      AllProfilesLast(km, RoundAll(ps));
      RoundedNames(km, before, p, CanonTables(ms));
    }
  }

  lemma FirstProfiles(km: Keymap, ps: seq<Profile>)
    requires ps != [] && AllStorable(km, ps) && DistinctNames(ps) && AllDecOk(ps)
    ensures var n := |ps| - 1;
            AllStorable(km, ps[..n]) && DistinctNames(ps[..n]) && AllDecOk(ps[..n])
            && ProfileStorable(km, ps[n]) && NulFree(ps[n].name)
            && DecOk(ps[n].scroll) && DecOk(ps[n].sens) && DecOk(ps[n].lpf)
            && forall i :: 0 <= i < n ==> ps[..n][i].name != ps[n].name
  {
    hide DecOk, NulFree, DistinctFrom, MapValid;
    assert ProfileStorable(km, ps[|ps| - 1]);
  }

  lemma NamesSnoc(ms: seq<Member>, m: Member, ps: seq<Profile>, p: Profile)
    requires NamesOf(ms, ps) && m.key == p.name
    ensures NamesOf(ms + [m], ps + [p])
  {}

  lemma NoProfiles(km: Keymap)
    ensures AllProfileMembers(km, []) == Some([]) && NamesOf([], []) && MembersOk([]) && Height([]) == 0
    ensures CanonScalars([]) == [] && CanonTables([]) == [] && RoundAll([]) == []
  {}

  lemma RoundAllLast(ps: seq<Profile>)
    requires ps != []
    ensures var n := |ps| - 1;
            RoundAll(ps) != [] && |RoundAll(ps)| - 1 == n
            && RoundAll(ps)[..n] == RoundAll(ps[..n]) && RoundAll(ps)[n] == RoundProfile(ps[n])
            && RoundAll(ps)[n].name == ps[n].name
  {
    hide Round15;
  }

  lemma RoundedNames(km: Keymap, ps: seq<Profile>, p: Profile, ms: seq<Member>)
    requires AllProfileMembers(km, RoundAll(ps)) == Some(ms)
    requires forall i :: 0 <= i < |ps| ==> ps[i].name != p.name
    ensures !Has(ms, p.name)
  {
    KeysAreNames(km, RoundAll(ps));
    assert forall i :: 0 <= i < |ps| ==> RoundAll(ps)[i].name == ps[i].name;
  }

  lemma {:induction false} KeysAreNames(km: Keymap, ps: seq<Profile>)
    requires AllProfileMembers(km, ps).Some?
    ensures NamesOf(AllProfileMembers(km, ps).value, ps)
    decreases |ps|
  {
    hide ProfileMembers;
    if ps == [] {
    } else {
      KeysAreNames(km, ps[..|ps| - 1]);
    }
  }

  // ----------------------------------------------------- whole configurations

  lemma HeadKeysDiffer()
    ensures K_PROFILE != K_CALIB && K_PROFILE != K_AIRMOUSE && K_PROFILE != K_PROFILES
    ensures K_CALIB != K_AIRMOUSE && K_CALIB != K_PROFILES && K_AIRMOUSE != K_PROFILES
    ensures NulFree(K_PROFILE) && NulFree(K_CALIB) && NulFree(K_AIRMOUSE) && NulFree(K_PROFILES)
  {
    assert |K_PROFILE| == 7 && |K_CALIB| == 5 && |K_AIRMOUSE| == 8 && |K_PROFILES| == 8;
    assert K_AIRMOUSE[0] == 'a' && K_PROFILES[0] == 'p';
  }

  function CalibMember(c: Config): seq<Member> {
    if c.calib.Some? then [Member(K_CALIB, Str(c.calib.value))] else []
  }

  function AirmouseMember(c: Config): seq<Member> {
    if c.hasAirmouse then [Member(K_AIRMOUSE, Bool(c.airmouse))] else []
  }

  lemma FindHead(c: Config, key: string)
    ensures Find(HeadMembers(c), key) ==
            if key == K_PROFILE then Some(Str(c.profile))
            else if key == K_CALIB && c.calib.Some? then Some(Str(c.calib.value))
            else if key == K_AIRMOUSE && c.hasAirmouse then Some(Bool(c.airmouse))
            else None
  {
    HeadKeysDiffer();
    var a, b, d := [Member(K_PROFILE, Str(c.profile))], CalibMember(c), AirmouseMember(c);
    assert HeadMembers(c) == a + b + d;
    FindOne(Member(K_PROFILE, Str(c.profile)), key);
    if c.calib.Some? {
      FindOne(Member(K_CALIB, Str(c.calib.value)), key);
    }
    FindOne(Member(K_AIRMOUSE, Bool(c.airmouse)), key);
    assert Find([], key) == None;
    hide IndexOf;
    FindConcat(a, b, key);
    FindConcat(a + b, d, key);
  }

  lemma FindRoot(c: Config, ms: seq<Member>, key: string)
    requires key == K_PROFILE || key == K_CALIB || key == K_AIRMOUSE || key == K_PROFILES
    ensures Find(HeadMembers(c) + [Member(K_PROFILES, Table(ms))], key) ==
            if key == K_PROFILES then Some(Table(ms)) else Find(HeadMembers(c), key)
  {
    HeadKeysDiffer();
    FindHead(c, key);
    hide HeadMembers, IndexOf;
    FindFirst(HeadMembers(c), Member(K_PROFILES, Table(ms)), key);
  }

  /** The four lookups of the reader on a written tree. */
  lemma RootLookups(km: Keymap, c: Config)
    requires Storable(km, c)
    ensures ToToml(km, c).Some?
    ensures var t := ToToml(km, c).value;
            Find(t, K_PROFILE) == Some(Str(c.profile))
            && Find(t, K_CALIB) == (if c.calib.Some? then Some(Str(c.calib.value)) else None)
            && Find(t, K_AIRMOUSE) == (if c.hasAirmouse then Some(Bool(c.airmouse)) else None)
            && Find(t, K_PROFILES) ==
               (if c.profiles == [] then None else Some(Table(AllProfileMembers(km, c.profiles).value)))
  {
    AllProfilesTrip(km, c.profiles);
    HeadKeysDiffer();
    hide HeadMembers, IndexOf, AllProfileMembers, ReadProfiles;
    FindHead(c, K_PROFILE);
    FindHead(c, K_CALIB);
    FindHead(c, K_AIRMOUSE);
    FindHead(c, K_PROFILES);
    if c.profiles != [] {
      var ms := AllProfileMembers(km, c.profiles).value;
      FindRoot(c, ms, K_PROFILE);
      FindRoot(c, ms, K_CALIB);
      FindRoot(c, ms, K_AIRMOUSE);
      FindRoot(c, ms, K_PROFILES);
    }
  }

  /** Reading a written configuration succeeds exactly when it is valid, and
      then gives it back. */
  lemma ConfigTrip(km: Keymap, c: Config)
    requires Storable(km, c)
    ensures ToToml(km, c).Some?
    ensures var l := FromToml(km, ToToml(km, c).value, DEFAULT_CONFIG);
            (l.ok <==> ConfigValid(km, c)) && (l.ok ==> l.config == c)
  {
    RootLookups(km, c);
    AllProfilesTrip(km, c.profiles);
    hide ToToml, IndexOf, AllProfileMembers, ReadProfiles, ProfileIndex, ProfileValid, ProfileStorable;
    var t := ToToml(km, c).value;
    var l0 := ReadName(t, Loaded(true, DEFAULT_CONFIG));
    var l1 := ReadCalib(t, l0);
    var l2 := ReadAirmouse(t, l1);
    assert l2 == Loaded(true, c.(profiles := []));
    var l3 := ReadProfileTable(km, t, l2);
    if c.profiles != [] {
      assert l3.ok <==> AllValid(km, c.profiles);
      assert l3.ok ==> l3.config == c;
    }
  }

  function RoundConfig(c: Config): Config { c.(profiles := RoundAll(c.profiles)) }

  /** Every number that is written has at most 15 significant digits. */
  predicate ShortNumbers(c: Config) {
    forall i :: 0 <= i < |c.profiles| ==> ShortProfile(c.profiles[i])
  }

  predicate ShortProfile(p: Profile) {
    (p.hasScroll ==> Short(p.scroll)) && (p.hasSens ==> Short(p.sens)) && (p.hasLpf ==> Short(p.lpf))
  }

  lemma RoundedIsSame(c: Config)
    requires NumbersOk(c)
    ensures RoundConfig(c) == c <==> ShortNumbers(c)
  {
    forall i | 0 <= i < |c.profiles|
      ensures RoundProfile(c.profiles[i]) == c.profiles[i] <==> ShortProfile(c.profiles[i])
    {
      RoundingFixesShort(c.profiles[i].scroll);
      RoundingFixesShort(c.profiles[i].sens);
      RoundingFixesShort(c.profiles[i].lpf);
    }
    hide RoundProfile, ShortProfile;
    if RoundConfig(c) == c {
      assert forall i :: 0 <= i < |c.profiles| ==> RoundAll(c.profiles)[i] == c.profiles[i];
    }
    if ShortNumbers(c) {
      assert RoundAll(c.profiles) == c.profiles;
    }
  }

  lemma RoundedStorable(km: Keymap, c: Config)
    requires Storable(km, c)
    ensures Storable(km, RoundConfig(c))
  {
    hide NulFree, DistinctFrom, MapValid, Round15;
    var r := RoundConfig(c);
    forall i | 0 <= i < |r.profiles|
      ensures ProfileStorable(km, r.profiles[i]) && r.profiles[i].name == c.profiles[i].name
    {
      assert ProfileStorable(km, c.profiles[i]);
    }
  }

  /** The written tree can be a document, and its canonical form is the tree
      of the rounded configuration. */
  lemma ConfigForm(km: Keymap, c: Config)
    requires Storable(km, c) && NumbersOk(c)
    ensures ToToml(km, c).Some?
    ensures MembersOk(ToToml(km, c).value) && Height(ToToml(km, c).value) <= 3
    ensures ToToml(km, RoundConfig(c)) == Some(Canon(ToToml(km, c).value))
  {
    hide *;
    StorableParts(km, c);
    AllProfilesForm(km, c.profiles);
    HeadForm(c);
    HeadKeysDiffer();
    FindHead(c, K_PROFILES);
    NotFound(HeadMembers(c), K_PROFILES);
    SameHead(c);
    ToTomlIs(km, c);
    ToTomlIs(km, RoundConfig(c));
    if c.profiles == [] {
      CanonIs(HeadMembers(c));
      assert HeadMembers(c) + [] == HeadMembers(c);
    } else {
      var ms := AllProfileMembers(km, c.profiles).value;
      var m := Member(K_PROFILES, Table(ms));
      TableOk(m.value);
      OkSnoc(HeadMembers(c), m);
      HeightSnoc(HeadMembers(c), m);
      CanonSnocTable(HeadMembers(c), m);
      CanonIs(HeadMembers(c) + [m]);
      CanonIs(ms);
      TablesOnly(HeadMembers(c), m, CanonTables(ms));
      RoundAllKeeps(c);
    }
  }

  lemma TablesOnly(head: seq<Member>, m: Member, ts: seq<Member>)
    ensures [] + [Member(m.key, Table([] + ts))] == [Member(m.key, Table(ts))]
    ensures [] + ts == ts && (head + []) + [Member(m.key, Table(ts))] == head + [Member(m.key, Table(ts))]
  {
    assert [] + ts == ts;
  }

  lemma RoundAllKeeps(c: Config)
    ensures (RoundConfig(c).profiles == []) <==> (c.profiles == [])
  {
    hide RoundProfile;
  }

  lemma NotFound(ms: seq<Member>, key: string)
    ensures Find(ms, key) == None <==> !Has(ms, key)
  {}

  lemma StorableParts(km: Keymap, c: Config)
    requires Storable(km, c) && NumbersOk(c)
    ensures km.Ok() && AllStorable(km, c.profiles) && DistinctNames(c.profiles) && AllDecOk(c.profiles)
    ensures NulFree(c.profile) && (c.calib.Some? ==> NulFree(c.calib.value))
    ensures RoundConfig(c).profiles == RoundAll(c.profiles)
  {
    hide DecOk, ProfileStorable, Keymap.Ok;
  }

  lemma ToTomlIs(km: Keymap, c: Config)
    ensures ToToml(km, c) ==
            if c.profiles == [] then Some(HeadMembers(c))
            else match AllProfileMembers(km, c.profiles)
              case None => None
              case Some(ms) => Some(HeadMembers(c) + [Member(K_PROFILES, Table(ms))])
  {
    hide HeadMembers, AllProfileMembers;
  }

  lemma SameHead(c: Config)
    ensures HeadMembers(RoundConfig(c)) == HeadMembers(c)
  {}

  lemma HeadForm(c: Config)
    requires NulFree(c.profile) && (c.calib.Some? ==> NulFree(c.calib.value))
    ensures var h := HeadMembers(c);
            MembersOk(h) && Height(h) == 0 && CanonScalars(h) == h && CanonTables(h) == []
  {
    HeadKeysDiffer();
    var h := HeadMembers(c);
    assert forall i :: 0 <= i < |h| ==>
        NulFree(h[i].key) && ValueOk(h[i].value) && !h[i].value.Table? && !h[i].value.Float?;
    assert UniqueKeys(h);
    FlatForm(h);
  }

  lemma {:induction false} FlatForm(ms: seq<Member>)
    requires forall i :: 0 <= i < |ms| ==> !ms[i].value.Table? && !ms[i].value.Float?
    ensures Height(ms) == 0 && CanonScalars(ms) == ms && CanonTables(ms) == []
    decreases |ms|
  {
    if ms == [] {
    } else {
      FlatForm(ms[1..]);
      assert ms == [ms[0]] + ms[1..];
    }
  }

  /** What the canonical tree of a configuration reads back as: the same
      configuration exactly when it is valid and its numbers are short. */
  lemma StoredTrip(km: Keymap, c: Config)
    requires Storable(km, c) && NumbersOk(c)
    ensures ToToml(km, c).Some?
    ensures FromToml(km, Canon(ToToml(km, c).value), DEFAULT_CONFIG) == Loaded(true, c)
            <==> ConfigValid(km, c) && ShortNumbers(c)
  {
    hide FromToml, ToToml, Storable, ConfigValid, ShortNumbers, Canon, RoundConfig, NumbersOk;
    ConfigForm(km, c);
    RoundedIsSame(c);
    RoundedStorable(km, c);
    ConfigTrip(km, RoundConfig(c));
  }
}
