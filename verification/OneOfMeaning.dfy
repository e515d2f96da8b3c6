/** What the derived unions accept: when each event identity still selects exactly one branch. */
module OneOfMeaning {
  import opened Common
  import opened OneOf

  // ----- the added pairs are distinct

  const ADDED: seq<Identity> := READDED + Added11() + Added12()

  /** Where a pair stands among the added ones, told by the length of its name and a letter or two. */
  function Seat(i: Identity): nat
    requires |i.name| >= 11 && |i.version| >= 3
  {
    var n, minor := |i.name|, i.version[2];
    if minor == '1' then
      if n == 14 then (if i.name[1] == 'l' then 2 else if i.name[1] == 'h' then 3 else 5)
      else if n == 15 then 6 else if n == 16 then 4 else 0
    else if minor == '2' then
      if n == 14 then (if i.name[0] == 'c' then 7 else 8) else if n == 16 then 9 else 1
    else if minor == '3' then 10
    else SeatOfLineage(i.name)
  }

  function SeatOfLineage(name: string): nat
    requires |name| >= 11
  {
    var n := |name|;
    if n == 14 then
      (if name[7] == 'c' then 11 else if name[7] == 'e' then 13 else if name[7] == 'a' then 17 else 18)
    else if n == 11 then 19 else if n == 16 then 20 else if n == 17 then 14 else if n == 19 then 16
    else if n == 20 then 15 else if n == 27 then 12 else if n == 29 then 21 else if n == 32 then 22 else 23
  }

  lemma {:induction false} EarlySeats()
    ensures |ADDED| == 24 && forall k :: 0 <= k < 11 ==> |ADDED[k].name| >= 11 && |ADDED[k].version| >= 3
    ensures Seat(ADDED[0]) == 0
    ensures Seat(ADDED[1]) == 1
    ensures Seat(ADDED[2]) == 2
    ensures Seat(ADDED[3]) == 3
    ensures Seat(ADDED[4]) == 4
    ensures Seat(ADDED[5]) == 5
    ensures Seat(ADDED[6]) == 6
    ensures Seat(ADDED[7]) == 7
    ensures Seat(ADDED[8]) == 8
    ensures Seat(ADDED[9]) == 9
    ensures Seat(ADDED[10]) == 10
  {
  }

  lemma {:induction false} MiddleSeats()
    ensures |ADDED| == 24 && forall k :: 11 <= k < 17 ==> |ADDED[k].name| >= 11 && |ADDED[k].version| >= 3
    ensures Seat(ADDED[11]) == 11
    ensures Seat(ADDED[12]) == 12
    ensures Seat(ADDED[13]) == 13
    ensures Seat(ADDED[14]) == 14
    ensures Seat(ADDED[15]) == 15
    ensures Seat(ADDED[16]) == 16
  {
    assert forall k :: 11 <= k < 17 ==> ADDED[k] == Identity(LINEAGE[k - 11], "1.0.0");
  }

  lemma {:induction false} LateSeats()
    ensures |ADDED| == 24 && forall k :: 17 <= k < 24 ==> |ADDED[k].name| >= 11 && |ADDED[k].version| >= 3
    ensures Seat(ADDED[17]) == 17
    ensures Seat(ADDED[18]) == 18
    ensures Seat(ADDED[19]) == 19
    ensures Seat(ADDED[20]) == 20
    ensures Seat(ADDED[21]) == 21
    ensures Seat(ADDED[22]) == 22
    ensures Seat(ADDED[23]) == 23
  {
    assert forall k :: 17 <= k < 24 ==> ADDED[k] == Identity(LINEAGE[k - 11], "1.0.0");
  }

  lemma {:induction false} AddedDistinct()
    ensures Distinct(ADDED)
  {
    EarlySeats();
    MiddleSeats();
    LateSeats();
    hide Seat, Added11, Added12;
    assert forall k :: 0 <= k < 24 ==> Seat(ADDED[k]) == k;
  }

  // ----- and so are the names of their definitions

  /** `1.d.0` for one digit d, as every added version is. */
  predicate Minor(version: string) {
    && |version| == 5 && version[0] == '1' && version[1] == '.' && '0' <= version[2] <= '9' && version[3] == '.'
    && version[4] == '0'
  }

  lemma {:induction false} SuffixOfMinor(version: string)
    requires Minor(version)
    ensures Suffix(version) == ['1', '_', version[2]]
  {
    var rest := version[2..];
    assert version == ['1'] + version[1..] && version[1..][0] == '.' && Until(version[1..]) == "";
    assert Until(version) == ['1'];
    assert rest == [version[2]] + rest[1..] && rest[1..][0] == '.' && Until(rest[1..]) == "";
    assert Until(rest) == [version[2]];
  }

  lemma {:induction false} AddedMinor(k: nat)
    requires k < |ADDED|
    ensures Minor(ADDED[k].version)
  {
    hide Until;
    if k < 3 {
      assert Minor(ADDED[0].version) && Minor(ADDED[1].version) && Minor(ADDED[2].version);
    } else if k < 7 {
      assert ADDED[k].version == "1.1.0";
    } else if k < 11 {
      assert Minor(Added12()[0].version) && Minor(Added12()[1].version);
      assert Minor(Added12()[2].version) && Minor(Added12()[3].version);
    } else {
      assert ADDED[k].version == "1.0.0";
    }
  }

  lemma {:induction false} IdentityNameParts(i: Identity)
    requires Minor(i.version)
    ensures
      var s, n := IdentityName(i), |i.name|;
      |s| == n + 20 && s[16..16 + n] == i.name && s[n + 19] == i.version[2]
  {
    SuffixOfMinor(i.version);
    var front := "schema_identity_" + i.name;
    assert IdentityName(i) == front + "_" + Suffix(i.version);
    assert front[16..] == i.name;
  }

  lemma {:induction false} AliasNameParts(i: Identity)
    requires Minor(i.version)
    ensures
      var s, n := AliasName(i), |i.name|;
      |s| == n + 11 && s[..n] == i.name && s[n + 3] == i.version[2] && s[n + 10] == 'a'
  {
    SuffixOfMinor(i.version);
    assert AliasName(i) == i.name + "_" + Suffix(i.version) + "_schema";
  }

  /** Minor-version pairs whose definitions share a name are equal, and no identity's name is an alias. */
  lemma {:induction false} NamesDiffer(i: Identity, j: Identity)
    requires Minor(i.version) && Minor(j.version)
    ensures IdentityName(i) == IdentityName(j) ==> i == j
    ensures AliasName(i) == AliasName(j) ==> i == j
    ensures IdentityName(i) != AliasName(j)
  {
    hide IdentityName, AliasName;
    IdentityNameParts(i);
    IdentityNameParts(j);
    AliasNameParts(i);
    AliasNameParts(j);
    if i.name == j.name && i.version[2] == j.version[2] {
      assert i.version == ['1', '.', i.version[2], '.', '0'] == j.version;
    }
  }

  // ----- definitions keep resolving

  /** Where a definition to be added already exists, it already says the same. */
  predicate Agrees(definitions: map<string, Definition>, ids: seq<Identity>) {
    forall k :: 0 <= k < |ids| ==>
      && (IdentityName(ids[k]) in definitions ==> definitions[IdentityName(ids[k])] == Exactly(ids[k]))
      && (AliasName(ids[k]) in definitions ==> definitions[AliasName(ids[k])] == To(IdentityName(ids[k])))
  }

  /** Every known branch's `schema` definition is the identity its payload schema belongs to. */
  predicate Coherent(definitions: map<string, Definition>, bs: seq<Branch>) {
    forall k :: 0 <= k < |bs| && bs[k].Known? ==> Resolves(definitions, bs[k].schema, bs[k].payload)
  }

  predicate AllIn(ids: seq<Identity>, universe: seq<Identity>) {
    forall k :: 0 <= k < |ids| ==> ids[k] in universe
  }

  predicate AllMinor(ids: seq<Identity>) {
    forall k :: 0 <= k < |ids| ==> Minor(ids[k].version)
  }

  lemma {:induction false} DefineAgrees(definitions: map<string, Definition>, i: Identity, universe: seq<Identity>)
    requires Agrees(definitions, universe) && i in universe && AllMinor(universe)
    ensures Agrees(Define(definitions, i), universe)
    ensures Resolves(Define(definitions, i), AliasName(i), i)
  {
    hide IdentityName, AliasName;
    NamesDiffer(i, i);
    forall k | 0 <= k < |universe| ensures Agrees(Define(definitions, i), [universe[k]]) {
      NamesDiffer(i, universe[k]);
      NamesDiffer(universe[k], i);
    }
    assert forall k :: 0 <= k < |universe| ==> [universe[k]][0] == universe[k];
  }

  lemma {:induction false} DefineKeeps(definitions: map<string, Definition>, i: Identity, universe: seq<Identity>,
                                       alias: string, j: Identity)
    requires Agrees(definitions, universe) && i in universe && AllMinor(universe) && Resolves(definitions, alias, j)
    ensures Resolves(Define(definitions, i), alias, j)
  {
    hide IdentityName, AliasName;
    NamesDiffer(i, i);
  }

  lemma {:induction false} DefineAllAgrees(definitions: map<string, Definition>, ids: seq<Identity>,
                                           universe: seq<Identity>)
    requires Agrees(definitions, universe) && AllIn(ids, universe) && AllMinor(universe)
    ensures Agrees(DefineAll(definitions, ids), universe)
    ensures forall alias, j :: Resolves(definitions, alias, j) ==> Resolves(DefineAll(definitions, ids), alias, j)
    ensures forall k :: 0 <= k < |ids| ==> Resolves(DefineAll(definitions, ids), AliasName(ids[k]), ids[k])
  {
    hide Agrees, Define, Resolves, IdentityName, AliasName;
    if ids != [] {
      var front, last := ids[..|ids| - 1], ids[|ids| - 1];
      DefineAllAgrees(definitions, front, universe);
      var before := DefineAll(definitions, front);
      DefineAgrees(before, last, universe);
      forall alias, j | Resolves(before, alias, j) ensures Resolves(Define(before, last), alias, j) {
        DefineKeeps(before, last, universe, alias, j);
      }
      assert forall k :: 0 <= k < |front| ==> ids[k] == front[k];
    }
  }

  lemma {:induction false} AddedAllMinor()
    ensures AllMinor(ADDED)
  {
    forall k | 0 <= k < |ADDED| ensures Minor(ADDED[k].version) { AddedMinor(k); }
  }

  // ----- counting branches

  function Payloads(bs: seq<Branch>): multiset<Identity> {
    if bs == [] then multiset{}
    else if bs[0].Known? then multiset{bs[0].payload} + Payloads(bs[1..])
    else Payloads(bs[1..])
  }

  function Fallbacks(bs: seq<Branch>): multiset<string> {
    if bs == [] then multiset{}
    else if bs[0].Opaque? then multiset{bs[0].version} + Fallbacks(bs[1..])
    else Fallbacks(bs[1..])
  }

  lemma {:induction false} CountAppend(a: seq<Branch>, b: seq<Branch>)
    ensures Payloads(a + b) == Payloads(a) + Payloads(b)
    ensures Fallbacks(a + b) == Fallbacks(a) + Fallbacks(b)
  {
    if a == [] {
      assert a + b == b;
    } else {
      assert (a + b)[1..] == a[1..] + b;
      CountAppend(a[1..], b);
    }
  }

  lemma {:induction false} CountEntries(ids: seq<Identity>)
    ensures Payloads(Entries(ids)) == multiset(ids) && Fallbacks(Entries(ids)) == multiset{}
  {
    if ids != [] {
      assert Entries(ids)[1..] == Entries(ids[1..]);
      CountEntries(ids[1..]);
      assert ids == [ids[0]] + ids[1..];
    }
  }

  lemma {:induction false} Shifted<T>(h: multiset<T>, a: multiset<T>, x: multiset<T>, b: multiset<T>, y: multiset<T>)
    requires a + x == b + y
    ensures (h + a) + x == (h + b) + y
  {
    assert (h + a) + x == h + (a + x);
    assert (h + b) + y == h + (b + y);
  }

  lemma {:induction false} Regroup<T>(h: multiset<T>, a: multiset<T>, b: multiset<T>)
    ensures h + (a + b) == (h + a) + b == (h + b) + a
  {
  }

  lemma {:induction false} CountFirst(bs: seq<Branch>, b: Branch, rest: seq<Branch>)
    requires bs == [b] + rest
    ensures Payloads(bs) == (if b.Known? then multiset{b.payload} else multiset{}) + Payloads(rest)
    ensures Fallbacks(bs) == (if b.Opaque? then multiset{b.version} else multiset{}) + Fallbacks(rest)
  {
    assert bs[1..] == rest;
  }

  lemma {:induction false} RetargetCounts(bs: seq<Branch>, from: string, to: string)
    ensures Retarget(bs, from, to).Some? <==> from in Fallbacks(bs)
    ensures Retarget(bs, from, to).Some? ==>
              var r := Retarget(bs, from, to).value;
              Payloads(r) == Payloads(bs) && Fallbacks(r) + multiset{from} == Fallbacks(bs) + multiset{to}
  {
    if bs != [] {
      var b, rest := bs[0], bs[1..];
      CountFirst(bs, b, rest);
      if b == Opaque(from) {
        hide Payloads, Fallbacks;
        CountFirst([Opaque(to)] + rest, Opaque(to), rest);
      } else {
        RetargetCounts(rest, from, to);
        match Retarget(rest, from, to)
        case None =>
        case Some(after) =>
          hide Payloads, Fallbacks, Retarget;
          CountFirst([b] + after, b, after);
          var h := if b.Opaque? then multiset{b.version} else multiset{};
          Shifted(h, Fallbacks(after), multiset{from}, Fallbacks(rest), multiset{to});
      }
    }
  }

  function Without(m: multiset<Identity>, ids: seq<Identity>): multiset<Identity> {
    if ids == [] then m else Without(m, ids[1..])[ids[0] := 0]
  }

  lemma {:induction false} WithoutCounts(m: multiset<Identity>, ids: seq<Identity>, i: Identity)
    ensures Without(m, ids)[i] == if i in ids then 0 else m[i]
  {
    if ids != [] { WithoutCounts(m, ids[1..], i); }
  }

  lemma {:induction false} KeepCounts(bs: seq<Branch>)
    ensures Payloads(Keep(bs)) == Without(Payloads(bs), READDED)
    ensures Fallbacks(Keep(bs)) == Fallbacks(bs)
  {
    hide Without;
    forall i | true ensures Payloads(Keep(bs))[i] == if i in READDED then 0 else Payloads(bs)[i] {
      KeepCount(bs, i);
    }
    forall i | true ensures Without(Payloads(bs), READDED)[i] == if i in READDED then 0 else Payloads(bs)[i] {
      WithoutCounts(Payloads(bs), READDED, i);
    }
    KeepFallbacks(bs);
  }

  lemma {:induction false} KeepCount(bs: seq<Branch>, i: Identity)
    ensures Payloads(Keep(bs))[i] == if i in READDED then 0 else Payloads(bs)[i]
  {
    if bs != [] { KeepCount(bs[1..], i); }
  }

  lemma {:induction false} KeepFallbacks(bs: seq<Branch>)
    ensures Fallbacks(Keep(bs)) == Fallbacks(bs)
  {
    if bs != [] { KeepFallbacks(bs[1..]); }
  }

  lemma {:induction false} InsertCounts(bs: seq<Branch>, legacy: Identity, added: seq<Branch>)
    ensures InsertAfter(bs, legacy, added).Some? <==> legacy in Payloads(bs)
    ensures InsertAfter(bs, legacy, added).Some? ==>
              var r := InsertAfter(bs, legacy, added).value;
              Payloads(r) == Payloads(bs) + Payloads(added) && Fallbacks(r) == Fallbacks(bs) + Fallbacks(added)
  {
    if bs != [] {
      if HasPayload(bs[0], legacy) {
        InsertHere(bs, legacy, added);
      } else {
        InsertCounts(bs[1..], legacy, added);
        InsertLater(bs, legacy, added);
      }
    }
  }

  lemma {:induction false} InsertHere(bs: seq<Branch>, legacy: Identity, added: seq<Branch>)
    requires bs != [] && HasPayload(bs[0], legacy)
    ensures legacy in Payloads(bs)
    ensures
      var r := [bs[0]] + added + bs[1..];
      Payloads(r) == Payloads(bs) + Payloads(added) && Fallbacks(r) == Fallbacks(bs) + Fallbacks(added)
  {
    hide Payloads, Fallbacks;
    var b, rest := bs[0], bs[1..];
    CountFirst(bs, b, rest);
    CountAppend(added, rest);
    assert [b] + added + rest == [b] + (added + rest);
    CountFirst([b] + added + rest, b, added + rest);
    Regroup(multiset{legacy}, Payloads(added), Payloads(rest));
    Regroup(multiset{}, Fallbacks(added), Fallbacks(rest));
  }

  lemma {:induction false} InsertLater(bs: seq<Branch>, legacy: Identity, added: seq<Branch>)
    requires bs != [] && !HasPayload(bs[0], legacy)
    requires InsertAfter(bs[1..], legacy, added).Some? <==> legacy in Payloads(bs[1..])
    requires InsertAfter(bs[1..], legacy, added).Some? ==>
               var r := InsertAfter(bs[1..], legacy, added).value;
               Payloads(r) == Payloads(bs[1..]) + Payloads(added)
                   && Fallbacks(r) == Fallbacks(bs[1..]) + Fallbacks(added)
    ensures InsertAfter(bs, legacy, added).Some? <==> legacy in Payloads(bs)
    ensures InsertAfter(bs, legacy, added).Some? ==>
              var r := InsertAfter(bs, legacy, added).value;
              Payloads(r) == Payloads(bs) + Payloads(added) && Fallbacks(r) == Fallbacks(bs) + Fallbacks(added)
  {
    var b, rest := bs[0], bs[1..];
    CountFirst(bs, b, rest);
    match InsertAfter(rest, legacy, added)
    case None =>
    case Some(after) =>
      assert InsertAfter(bs, legacy, added) == Some([b] + after);
      hide Payloads, Fallbacks, InsertAfter;
      CountFirst([b] + after, b, after);
      Regroup(if b.Known? then multiset{b.payload} else multiset{}, Payloads(rest), Payloads(added));
      Regroup(if b.Opaque? then multiset{b.version} else multiset{}, Fallbacks(rest), Fallbacks(added));
  }

  // ----- coherence through the steps

  lemma {:induction false} RetargetCoherent(definitions: map<string, Definition>, bs: seq<Branch>, from: string,
        to: string)
    requires Coherent(definitions, bs) && Retarget(bs, from, to).Some?
    ensures Coherent(definitions, Retarget(bs, from, to).value)
  {
    if bs[0] != Opaque(from) {
      assert Coherent(definitions, bs[1..]);
      RetargetCoherent(definitions, bs[1..], from, to);
    }
  }

  lemma {:induction false} KeepCoherent(definitions: map<string, Definition>, bs: seq<Branch>)
    requires Coherent(definitions, bs)
    ensures Coherent(definitions, Keep(bs))
  {
    if bs != [] {
      assert Coherent(definitions, bs[1..]);
      KeepCoherent(definitions, bs[1..]);
    }
  }

  lemma {:induction false} InsertCoherent(definitions: map<string, Definition>, bs: seq<Branch>, legacy: Identity,
                                          added: seq<Branch>)
    requires Coherent(definitions, bs) && Coherent(definitions, added) && InsertAfter(bs, legacy, added).Some?
    ensures Coherent(definitions, InsertAfter(bs, legacy, added).value)
  {
    if !HasPayload(bs[0], legacy) {
      assert Coherent(definitions, bs[1..]);
      InsertCoherent(definitions, bs[1..], legacy, added);
    }
  }

  /** A draft whose known branches are coherent, with these payloads and a single fallback. */
  predicate Sound(d: Draft, known: multiset<Identity>, version: string) {
    && Coherent(d.definitions, d.branches) && Agrees(d.definitions, ADDED)
    && Payloads(d.branches) == known && Fallbacks(d.branches) == multiset{version}
  }

  lemma {:induction false} DefineAllCoherent(definitions: map<string, Definition>, bs: seq<Branch>, ids: seq<Identity>)
    requires Coherent(definitions, bs) && Agrees(definitions, ADDED) && AllIn(ids, ADDED)
    ensures
      var after := DefineAll(definitions, ids);
      Agrees(after, ADDED) && Coherent(after, bs) && Coherent(after, Entries(ids))
  {
    hide Agrees, Resolves, DefineAll, AllIn;
    AddedAllMinor();
    DefineAllAgrees(definitions, ids, ADDED);
  }

  lemma {:induction false} InsertSound(d: Draft, known: multiset<Identity>, version: string, legacy: Identity,
                                       ids: seq<Identity>)
    requires Sound(d, known, version) && AllIn(ids, ADDED)
    ensures InsertAfter(d.branches, legacy, Entries(ids)).Some? <==> legacy in known
    ensures legacy in known ==>
              var bs := InsertAfter(d.branches, legacy, Entries(ids)).value;
              Sound(Draft(DefineAll(d.definitions, ids), bs), known + multiset(ids), version)
  {
    hide Agrees, DefineAll, Payloads, Fallbacks, InsertAfter, Coherent, AllIn;
    InsertCounts(d.branches, legacy, Entries(ids));
    CountEntries(ids);
    DefineAllCoherent(d.definitions, d.branches, ids);
    if legacy in known {
      InsertCoherent(DefineAll(d.definitions, ids), d.branches, legacy, Entries(ids));
    }
  }

  lemma {:induction false} RetargetSound(d: Draft, known: multiset<Identity>, from: string, to: string)
    requires Sound(d, known, from)
    ensures Retarget(d.branches, from, to).Some?
    ensures Sound(Draft(d.definitions, Retarget(d.branches, from, to).value), known, to)
  {
    hide Payloads, Fallbacks, Coherent, Agrees, Retarget;
    RetargetCounts(d.branches, from, to);
    RetargetCoherent(d.definitions, d.branches, from, to);
    Cancel(Fallbacks(Retarget(d.branches, from, to).value), multiset{from}, multiset{to});
  }

  lemma {:induction false} Cancel<T>(a: multiset<T>, x: multiset<T>, y: multiset<T>)
    requires a + x == x + y
    ensures a == y
  {
    assert forall t :: (a + x)[t] == (x + y)[t] ==> a[t] == y[t];
  }

  // ----- the derived drafts are sound

  const EVIDENCE_1_0 := Identity("evidence_recorded", "1.0.0")

  const CLAIM_1_0 := Identity("claim_recorded", "1.0.0")

  lemma {:induction false} Part(ids: seq<Identity>, from: nat)
    requires from + |ids| <= |ADDED| && ids == ADDED[from..from + |ids|]
    ensures AllIn(ids, ADDED)
  {
    assert forall k :: 0 <= k < |ids| ==> ids[k] == ADDED[from + k];
  }

  lemma {:induction false} AddedParts()
    ensures AllIn(READDED, ADDED) && AllIn(EVIDENCE, ADDED) && AllIn(CLAIM, ADDED) && AllIn(Added11(), ADDED)
          && AllIn(Added12(), ADDED)
    ensures EVIDENCE_1_0 !in READDED && CLAIM_1_0 !in READDED
  {
    hide Added11, Added12, AllIn;
    assert |READDED| == 3 && READDED[0].version[2] != '0' && READDED[1].version[2] != '0'
        && READDED[2].version[2] != '0';
    assert EVIDENCE_1_0.version[2] == '0' && CLAIM_1_0.version[2] == '0';
    assert EVIDENCE == READDED[..2] && CLAIM == READDED[2..];
    assert ADDED[..3] == READDED;
    Part(READDED, 0);
    Part(EVIDENCE, 0);
    Part(CLAIM, 2);
    Part(Added11(), 3);
    Part(Added12(), 3 + |Added11()|);
  }

  lemma {:induction false} Base11Sound(d: Draft, known: multiset<Identity>)
    requires Sound(d, known, "1.0.0")
    ensures Base11(d).Ok? <==> EVIDENCE_1_0 in known && CLAIM_1_0 in known
    ensures Base11(d).Ok? ==> Sound(Base11(d).value, Without(known, READDED) + multiset(READDED), "1.1.0")
  {
    hide Payloads, Fallbacks, Coherent, Agrees, Retarget, Keep, InsertAfter, Without, DefineAll, AllIn;
    AddedParts();
    RetargetSound(d, known, "1.0.0", "1.1.0");
    var retargeted := Retarget(d.branches, "1.0.0", "1.1.0").value;
    KeepCounts(retargeted);
    KeepCoherent(d.definitions, retargeted);
    var kept := Draft(d.definitions, Keep(retargeted));
    var rest := Without(known, READDED);
    WithoutCounts(known, READDED, EVIDENCE_1_0);
    WithoutCounts(known, READDED, CLAIM_1_0);
    InsertSound(kept, rest, "1.1.0", EVIDENCE_1_0, EVIDENCE);
    if EVIDENCE_1_0 in known {
      var evidence := InsertAfter(kept.branches, EVIDENCE_1_0, Entries(EVIDENCE)).value;
      assert CLAIM_1_0 in rest + multiset(EVIDENCE) <==> CLAIM_1_0 in known;
      InsertSound(Draft(DefineAll(d.definitions, EVIDENCE), evidence), rest + multiset(EVIDENCE), "1.1.0", CLAIM_1_0,
          CLAIM);
      assert rest + multiset(EVIDENCE) + multiset(CLAIM) == rest + multiset(READDED);
    }
  }

  predicate AllLegacy(known: multiset<Identity>, families: seq<string>) {
    forall k :: 0 <= k < |families| ==> Identity(families[k], "1.0.0") in known
  }

  lemma {:induction false} AddFamiliesSound(d: Draft, known: multiset<Identity>, version: string, families: seq<string>)
    requires Sound(d, known, version) && AllIn(Versioned(families, "1.1.0"), ADDED)
    ensures AddFamilies(d, families).Ok? <==> AllLegacy(known, families)
    ensures AddFamilies(d, families).Ok? ==>
              Sound(AddFamilies(d, families).value, known + multiset(Versioned(families, "1.1.0")), version)
  {
    hide Sound, InsertAfter, Define, Entry, AllLegacy, Added11, Added12;
    var ids := Versioned(families, "1.1.0");
    if families == [] {
      NoFamilies(known, families);
      assert known + multiset(ids) == known;
    } else {
      var n := |families| - 1;
      var front, last := families[..n], families[n];
      LastFamily(known, families);
      AddFamiliesSound(d, known, version, front);
      if AddFamilies(d, front).Ok? {
        AddFamilySound(AddFamilies(d, front).value, known, ids[..n], version, last);
      }
    }
  }

  lemma {:induction false} NoFamilies(known: multiset<Identity>, families: seq<string>)
    requires families == []
    ensures AllLegacy(known, families)
  {
  }

  lemma {:induction false} LastFamily(known: multiset<Identity>, families: seq<string>)
    requires families != [] && AllIn(Versioned(families, "1.1.0"), ADDED)
    ensures
      var n, ids := |families| - 1, Versioned(families, "1.1.0");
      && Versioned(families[..n], "1.1.0") == ids[..n] && ids == ids[..n] + [Identity(families[n], "1.1.0")]
      && AllIn(ids[..n], ADDED) && Identity(families[n], "1.1.0") in ADDED
      && (AllLegacy(known, families) <==> AllLegacy(known, families[..n]) && Identity(families[n], "1.0.0") in known)
  {
    hide Added11, Added12;
    var n := |families| - 1;
    assert Versioned(families, "1.1.0")[n] in ADDED;
  }

  lemma {:induction false} AddFamilySound(d: Draft, known: multiset<Identity>, ids: seq<Identity>, version: string,
                                          family: string)
    requires Sound(d, known + multiset(ids), version)
    requires forall k :: 0 <= k < |ids| ==> ids[k].version == "1.1.0"
    requires Identity(family, "1.1.0") in ADDED
    ensures
      var added := Identity(family, "1.1.0");
      var r := InsertAfter(d.branches, Identity(family, "1.0.0"), [Entry(added)]);
      && (r.Some? <==> Identity(family, "1.0.0") in known)
      && (r.Some? ==> Sound(Draft(Define(d.definitions, added), r.value), known + multiset(ids + [added]), version))
  {
    hide Payloads, Fallbacks, Coherent, Agrees, InsertAfter, Define, Entry, Added11, Added12;
    var added := Identity(family, "1.1.0");
    assert Entries([added]) == [Entry(added)];
    assert DefineAll(d.definitions, [added]) == Define(d.definitions, added) by {
      assert [added][..0] == [];
    }
    assert "1.0.0"[2] != "1.1.0"[2];
    assert Identity(family, "1.0.0") !in multiset(ids);
    InsertSound(d, known + multiset(ids), version, Identity(family, "1.0.0"), [added]);
    assert known + multiset(ids) + multiset([added]) == known + multiset(ids + [added]);
  }

  /** The branches the derivation looks for by their payload. */
  predicate Templated(known: multiset<Identity>) {
    EVIDENCE_1_0 in known && CLAIM_1_0 in known && AllLegacy(known, FAMILIES_1_1)
  }

  function Known11(known: multiset<Identity>): multiset<Identity> {
    Without(known, READDED) + multiset(READDED) + multiset(Added11())
  }

  lemma {:induction false} Draft11Sound(d: Draft, known: multiset<Identity>)
    requires Sound(d, known, "1.0.0")
    ensures Draft11(d).Ok? <==> Templated(known)
    ensures Draft11(d).Ok? ==> Sound(Draft11(d).value, Known11(known), "1.1.0")
  {
    hide Sound, Without, Base11, AddFamilies, AllIn;
    AddedParts();
    Base11Sound(d, known);
    if Base11(d).Ok? {
      var base := Without(known, READDED) + multiset(READDED);
      AddFamiliesSound(Base11(d).value, base, "1.1.0", FAMILIES_1_1);
      assert "1.0.0"[2] != "1.1.0"[2] && "1.0.0"[2] != "1.2.0"[2];
      forall k | 0 <= k < |FAMILIES_1_1|
        ensures Identity(FAMILIES_1_1[k], "1.0.0") in base <==> Identity(FAMILIES_1_1[k], "1.0.0") in known
      {
        WithoutCounts(known, READDED, Identity(FAMILIES_1_1[k], "1.0.0"));
      }
    }
  }

  lemma {:induction false} Draft12Sound(d: Draft, known: multiset<Identity>)
    requires Sound(d, known, "1.0.0")
    ensures Draft12(d).Ok? <==> Templated(known)
    ensures Draft12(d).Ok? ==> Sound(Draft12(d).value, Known11(known) + multiset(Added12()), "1.2.0")
  {
    hide Payloads, Fallbacks, Coherent, Agrees, Retarget, Known11, Templated, DefineAll, Draft11, Added11, Added12,
         AllIn;
    AddedParts();
    Draft11Sound(d, known);
    if Draft11(d).Ok? {
      var before, ids := Draft11(d).value, Added12();
      RetargetSound(before, Known11(known), "1.1.0", "1.2.0");
      var bs := Retarget(before.branches, "1.1.0", "1.2.0").value;
      CountAppend(bs, Entries(ids));
      CountEntries(ids);
      DefineAllCoherent(before.definitions, bs, ids);
      CoherentAppend(DefineAll(before.definitions, ids), bs, Entries(ids));
    }
  }

  lemma {:induction false} CoherentAppend(definitions: map<string, Definition>, a: seq<Branch>, b: seq<Branch>)
    requires Coherent(definitions, a) && Coherent(definitions, b)
    ensures Coherent(definitions, a + b)
  {
  }

  // ----- when the derivations fail

  predicate HasBranch(d: Draft, name: string, version: string) {
    exists k :: 0 <= k < |d.branches| && d.branches[k].Known? && d.branches[k].payload == Identity(name, version)
  }

  /** What every derivation looks for first: the fallback to move on, and the legacy evidence and claim branches. */
  predicate IsTemplate(d: Draft) {
    && Opaque("1.0.0") in d.branches
    && HasBranch(d, "evidence_recorded", "1.0.0") && HasBranch(d, "claim_recorded", "1.0.0")
  }

  lemma {:induction false} PayloadIn(bs: seq<Branch>, i: Identity)
    ensures i in Payloads(bs) <==> exists k :: 0 <= k < |bs| && bs[k].Known? && bs[k].payload == i
  {
    if bs != [] {
      PayloadIn(bs[1..], i);
      assert forall k :: 0 < k < |bs| ==> bs[k] == bs[1..][k - 1];
      if k :| 0 <= k < |bs[1..]| && bs[1..][k].Known? && bs[1..][k].payload == i { assert bs[k + 1].payload == i; }
    }
  }

  lemma {:induction false} FallbackIn(bs: seq<Branch>, version: string)
    ensures version in Fallbacks(bs) <==> Opaque(version) in bs
  {
    if bs != [] { FallbackIn(bs[1..], version); }
  }

  lemma {:induction false} BothInserted(kept: seq<Branch>)
    ensures InsertAfter(kept, EVIDENCE_1_0, Entries(EVIDENCE)).Some? <==> EVIDENCE_1_0 in Payloads(kept)
    ensures EVIDENCE_1_0 in Payloads(kept) ==>
              var evidence := InsertAfter(kept, EVIDENCE_1_0, Entries(EVIDENCE)).value;
              var claim := InsertAfter(evidence, CLAIM_1_0, Entries(CLAIM));
              && (claim.Some? <==> CLAIM_1_0 in Payloads(kept))
              && (claim.Some? ==> Payloads(claim.value) == Payloads(kept) + multiset(READDED))
              && (claim.Some? ==> Fallbacks(claim.value) == Fallbacks(kept))
  {
    hide Payloads, Fallbacks, InsertAfter, Entries;
    AddedParts();
    InsertCounts(kept, EVIDENCE_1_0, Entries(EVIDENCE));
    CountEntries(EVIDENCE);
    CountEntries(CLAIM);
    if EVIDENCE_1_0 in Payloads(kept) {
      var evidence := InsertAfter(kept, EVIDENCE_1_0, Entries(EVIDENCE)).value;
      InsertCounts(evidence, CLAIM_1_0, Entries(CLAIM));
      assert CLAIM_1_0 !in multiset(EVIDENCE);
      assert Payloads(kept) + multiset(EVIDENCE) + multiset(CLAIM) == Payloads(kept) + multiset(READDED);
    }
  }

  lemma {:induction false} BaseFails(d: Draft)
    ensures Base11(d).Err? ==> Base11(d) == Err(TemplateInvalid)
    ensures Base11(d).Ok? <==> IsTemplate(d)
    ensures Base11(d).Ok? ==>
              && Payloads(Base11(d).value.branches) == Without(Payloads(d.branches), READDED) + multiset(READDED)
              && "1.1.0" in Fallbacks(Base11(d).value.branches)
  {
    hide Payloads, Fallbacks, Retarget, Keep, InsertAfter, Without, DefineAll, Entries, READDED, EVIDENCE, CLAIM;
    var known := Payloads(d.branches);
    PayloadIn(d.branches, EVIDENCE_1_0);
    PayloadIn(d.branches, CLAIM_1_0);
    FallbackIn(d.branches, "1.0.0");
    RetargetCounts(d.branches, "1.0.0", "1.1.0");
    if Retarget(d.branches, "1.0.0", "1.1.0").Some? {
      var retargeted := Retarget(d.branches, "1.0.0", "1.1.0").value;
      KeepCounts(retargeted);
      AddedParts();
      WithoutCounts(known, READDED, EVIDENCE_1_0);
      WithoutCounts(known, READDED, CLAIM_1_0);
      BothInserted(Keep(retargeted));
      MovedOn(Fallbacks(retargeted), Fallbacks(d.branches));
    }
  }

  lemma {:induction false} MovedOn(after: multiset<string>, before: multiset<string>)
    requires after + multiset{"1.0.0"} == before + multiset{"1.1.0"}
    ensures "1.1.0" in after
  {
    assert "1.0.0"[2] != "1.1.0"[2];
    assert "1.1.0" in after + multiset{"1.0.0"};
  }

  lemma {:induction false} FamiliesFail(d: Draft, families: seq<string>)
    ensures AddFamilies(d, families).Err? ==> AddFamilies(d, families) == Err(NoLegacyBranch)
    ensures AddFamilies(d, families).Ok? <==> AllLegacy(Payloads(d.branches), families)
    ensures AddFamilies(d, families).Ok? ==>
              var after := AddFamilies(d, families).value.branches;
              && Payloads(after) == Payloads(d.branches) + multiset(Versioned(families, "1.1.0"))
              && Fallbacks(after) == Fallbacks(d.branches)
  {
    hide Payloads, Fallbacks, InsertAfter, Define, AllLegacy, Added11, Added12;
    if families == [] {
      NoFamilies(Payloads(d.branches), families);
      assert Versioned(families, "1.1.0") == [];
    } else {
      var n := |families| - 1;
      var front, added := families[..n], Identity(families[n], "1.1.0");
      FamiliesFail(d, front);
      LastOf(Payloads(d.branches), families);
      if AddFamilies(d, front).Ok? {
        var before := AddFamilies(d, front).value;
        InsertCounts(before.branches, Identity(families[n], "1.0.0"), [Entry(added)]);
        CountEntries([added]);
        assert Entries([added]) == [Entry(added)];
        assert "1.0.0"[2] != "1.1.0"[2];
        assert Identity(families[n], "1.0.0") !in multiset(Versioned(front, "1.1.0"));
      }
    }
  }

  lemma {:induction false} LastOf(known: multiset<Identity>, families: seq<string>)
    requires families != []
    ensures
      var n := |families| - 1;
      && Versioned(families, "1.1.0") == Versioned(families[..n], "1.1.0") + [Identity(families[n], "1.1.0")]
      && (AllLegacy(known, families) <==> AllLegacy(known, families[..n]) && Identity(families[n], "1.0.0") in known)
  {
  }

  /** Any draft whatever: both derivations fail in the same way, and exactly when a branch they look for is missing. */
  lemma {:induction false} DerivationFails(d: Draft)
    ensures Draft11(d) == Err(TemplateInvalid) <==> !IsTemplate(d)
    ensures Draft11(d) == Err(NoLegacyBranch) <==>
              IsTemplate(d) && !(&& HasBranch(d, "check_recorded", "1.0.0") && HasBranch(d, "finding_recorded", "1.0.0")
                                 && HasBranch(d, "session_opened", "1.0.0") && HasBranch(d, "session_resumed", "1.0.0"))
    ensures Draft12(d).Err? <==> Draft11(d).Err?
    ensures Draft12(d).Err? ==> Draft12(d) == Draft11(d)
  {
    hide Payloads, Fallbacks, Retarget, InsertAfter, Base11, AddFamilies, DefineAll, Entries, IsTemplate, HasBranch,
         Added12;
    BaseFails(d);
    if Base11(d).Ok? {
      var base := Base11(d).value;
      FamiliesFail(base, FAMILIES_1_1);
      FamiliesKnown(d);
      if Draft11(d).Ok? {
        RetargetCounts(Draft11(d).value.branches, "1.1.0", "1.2.0");
      }
    }
  }

  lemma {:induction false} FamiliesKnown(d: Draft)
    ensures AllLegacy(Without(Payloads(d.branches), READDED) + multiset(READDED), FAMILIES_1_1) <==>
              && HasBranch(d, "check_recorded", "1.0.0") && HasBranch(d, "finding_recorded", "1.0.0")
              && HasBranch(d, "session_opened", "1.0.0") && HasBranch(d, "session_resumed", "1.0.0")
  {
    hide Payloads, Without;
    var known := Payloads(d.branches);
    assert "1.0.0"[2] != "1.1.0"[2] && "1.0.0"[2] != "1.2.0"[2];
    forall name: string
      ensures Identity(name, "1.0.0") in Without(known, READDED) + multiset(READDED) <==> HasBranch(d, name, "1.0.0")
    {
      WithoutCounts(known, READDED, Identity(name, "1.0.0"));
      PayloadIn(d.branches, Identity(name, "1.0.0"));
    }
    hide HasBranch;
    assert FAMILIES_1_1[0] == "check_recorded" && FAMILIES_1_1[1] == "finding_recorded";
    assert FAMILIES_1_1[2] == "session_opened" && FAMILIES_1_1[3] == "session_resumed";
  }

  // ----- how many branches an identity selects

  lemma {:induction false} SelectedIs(c: Context, definitions: map<string, Definition>, bs: seq<Branch>,
        version: string, i: Identity)
    requires Coherent(definitions, bs) && forall v :: v in Fallbacks(bs) ==> v == version
    ensures Selected(c, definitions, bs, i)
            == Payloads(bs)[i] + if OpaqueSelects(c, version, i) then Fallbacks(bs)[version] else 0
  {
    if bs != [] {
      assert Coherent(definitions, bs[1..]);
      forall v | v in Fallbacks(bs[1..]) ensures v == version { assert v in Fallbacks(bs); }
      if bs[0].Opaque? { assert bs[0].version in Fallbacks(bs); }
      SelectedIs(c, definitions, bs[1..], version, i);
    }
  }

  lemma {:induction false} CoveredAppend(a: seq<Exclusion>, b: seq<Exclusion>, i: Identity)
    ensures CoveredBy(a + b, i) <==> CoveredBy(a, i) || CoveredBy(b, i)
  {
    if CoveredBy(a, i) {
      var k :| 0 <= k < |a| && Covers(a[k], i);
      assert Covers((a + b)[k], i);
    }
    if CoveredBy(b, i) {
      var k :| 0 <= k < |b| && Covers(b[k], i);
      assert Covers((a + b)[|a| + k], i);
    }
  }

  lemma {:induction false} CoveredByExclusions(ids: seq<Identity>, i: Identity)
    ensures CoveredBy(Exclusions(ids), i) <==> i in ids
  {
    assert forall k :: 0 <= k < |ids| ==> (Covers(Exclusions(ids)[k], i) <==> ids[k] == i);
  }

  lemma {:induction false} SameLineage(i: Identity)
    ensures i in Excluded12() <==> i in Added12()
  {
    var tail := Versioned(LINEAGE, "1.0.0");
    var a := [Identity("check_recorded", "1.2.0"), Identity("session_opened", "1.2.0"),
              Identity("finding_recorded", "1.2.0"), Identity("finding_recorded", "1.3.0")];
    var b := Versioned(["check_recorded", "finding_recorded"], "1.2.0")
             + [Identity("session_opened", "1.2.0"), Identity("finding_recorded", "1.3.0")];
    assert b == [Identity("check_recorded", "1.2.0"), Identity("finding_recorded", "1.2.0"),
                 Identity("session_opened", "1.2.0"), Identity("finding_recorded", "1.3.0")];
    assert i in a <==> i in b;
  }

  /** The opaque derivations fail only on an empty list of exclusions, from which no first can be taken. */
  lemma {:induction false} OpaqueFails(n: Negation)
    ensures Opaque11(n).None? <==> n == AnyOf([])
    ensures Opaque12(n).None? <==> n == AnyOf([])
    ensures n.AnyOf? && n.exclusions != [] ==>
              && Opaque11(n).value.AnyOf? && Opaque12(n).value.AnyOf?
              && n.exclusions[..1] <= Opaque11(n).value.exclusions <= Opaque12(n).value.exclusions
  {
  }

  /** Both derived opaque schemas exclude the legacy list and the pairs added by then, and nothing else. */
  lemma {:induction false} OpaqueExcludes(n: Negation, i: Identity)
    requires Legacy(n).Some?
    ensures Excludes(Opaque11(n).value, i) <==> Covers(Legacy(n).value, i) || i in READDED || i in Added11()
    ensures Excludes(Opaque12(n).value, i)
            <==> Covers(Legacy(n).value, i) || i in READDED || i in Added11() || i in Added12()
  {
    hide CoveredBy, Added11, Added12, Excluded12;
    var first := [Legacy(n).value];
    var first11 := first + Exclusions(READDED);
    var all11 := first11 + Exclusions(Added11());
    assert CoveredBy(first, i) <==> Covers(first[0], i) by { CoveredByOne(first[0], i); }
    CoveredAppend(first, Exclusions(READDED), i);
    CoveredAppend(first11, Exclusions(Added11()), i);
    CoveredAppend(all11, Exclusions(Excluded12()), i);
    CoveredByExclusions(READDED, i);
    CoveredByExclusions(Added11(), i);
    CoveredByExclusions(Excluded12(), i);
    SameLineage(i);
  }

  lemma {:induction false} CoveredByOne(e: Exclusion, i: Identity)
    ensures CoveredBy([e], i) <==> Covers(e, i)
  {
    assert [e][0] == e;
  }

  // ----- the frozen schemas

  function Publish(n: Negation, proper: Identity -> bool): Context
    requires Legacy(n).Some?
  {
    Context(map["1.0.0" := n, "1.1.0" := Opaque11(n).value, "1.2.0" := Opaque12(n).value], proper)
  }

  lemma {:induction false} Published(n: Negation, proper: Identity -> bool)
    requires Legacy(n).Some?
    ensures
      var published := Publish(n, proper).opaque_;
      && "1.0.0" in published && published["1.0.0"] == n
      && "1.1.0" in published && published["1.1.0"] == Opaque11(n).value
      && "1.2.0" in published && published["1.2.0"] == Opaque12(n).value
  {
    assert "1.0.0"[2] == '0' && "1.1.0"[2] == '1' && "1.2.0"[2] == '2';
  }

  /** The 1.0.0 draft is well formed, and its known pairs are exactly those its opaque schema excludes. */
  ghost predicate FrozenExact(d: Draft, n: Negation, proper: Identity -> bool) {
    && Sound(d, Payloads(d.branches), "1.0.0") && Legacy(n).Some?
    && (forall k :: 0 <= k < |ADDED| ==> proper(ADDED[k]))
    && forall i :: Payloads(d.branches)[i] == if proper(i) && Excludes(n, i) then 1 else 0
  }

  predicate NotYetKnown(d: Draft, ids: seq<Identity>) {
    forall k :: 0 <= k < |ids| ==> ids[k] !in Payloads(d.branches)
  }

  /** Every pair behind the first exclusion, which the derivation drops, is covered by it or added back. */
  predicate NothingDropped(n: Negation, proper: Identity -> bool) {
    n.AnyOf? ==>
      forall k, m :: 0 < k < |n.exclusions| && 0 <= m < |n.exclusions[k].names| ==>
        Carried(n.exclusions[0], proper, Identity(n.exclusions[k].names[m], n.exclusions[k].version))
  }

  predicate Carried(legacy: Exclusion, proper: Identity -> bool, i: Identity) {
    proper(i) ==> Covers(legacy, i) || i in READDED
  }

  lemma {:induction false} DroppedPair(n: Negation, proper: Identity -> bool, i: Identity)
    requires Legacy(n).Some? && NothingDropped(n, proper) && proper(i) && Excludes(n, i)
    ensures Covers(Legacy(n).value, i) || i in READDED
  {
    if n.AnyOf? {
      var k :| 0 <= k < |n.exclusions| && Covers(n.exclusions[k], i);
      if k > 0 {
        var m :| 0 <= m < |n.exclusions[k].names| && n.exclusions[k].names[m] == i.name;
        assert Carried(n.exclusions[0], proper, Identity(n.exclusions[k].names[m], n.exclusions[k].version));
      }
    }
  }

  lemma {:induction false} LegacyExcluded(n: Negation, i: Identity)
    requires Legacy(n).Some? && Covers(Legacy(n).value, i)
    ensures Excludes(n, i)
  {
    if n.AnyOf? { assert Covers(n.exclusions[0], i); }
  }

  lemma {:induction false} FrozenUnambiguous(d: Draft, n: Negation, proper: Identity -> bool)
    requires FrozenExact(d, n, proper)
    ensures Unambiguous(Publish(n, proper), d)
  {
    var c := Publish(n, proper);
    Published(n, proper);
    forall i | true ensures Selected(c, d.definitions, d.branches, i) == if proper(i) then 1 else 0 {
      SelectedIs(c, d.definitions, d.branches, "1.0.0", i);
    }
  }

  // ----- the main results

  lemma {:induction false} AddedOnce(i: Identity)
    ensures multiset(READDED)[i] + multiset(Added11())[i] + multiset(Added12())[i] == if i in ADDED then 1 else 0
    ensures i in ADDED <==> i in READDED || i in Added11() || i in Added12()
  {
    hide Added11, Added12;
    AddedDistinct();
    OnceCounts(ADDED, i);
    assert multiset(ADDED) == multiset(READDED) + multiset(Added11()) + multiset(Added12());
  }

  /** In the 1.1.0 draft: the known payloads, plus one when the opaque branch takes the identity too. */
  lemma {:induction false} Selected11(d: Draft, n: Negation, proper: Identity -> bool, i: Identity)
    requires FrozenExact(d, n, proper) && Draft11(d).Ok?
    ensures
      var e := Draft11(d).value;
      var legacy := Covers(Legacy(n).value, i);
      Selected(Publish(n, proper), e.definitions, e.branches, i)
      == (if i in READDED then 1 else Payloads(d.branches)[i])
         + (if i in Added11() then 1 else 0)
         + (if proper(i) && !legacy && i !in READDED && i !in Added11() then 1 else 0)
  {
    hide Payloads, Fallbacks, Coherent, Agrees, Draft11, Added11, Added12, Excludes, Without, Opaque11, Opaque12;
    var known, e := Payloads(d.branches), Draft11(d).value;
    Published(n, proper);
    OpaqueExcludes(n, i);
    Draft11Sound(d, known);
    SelectedIs(Publish(n, proper), e.definitions, e.branches, "1.1.0", i);
    WithoutCounts(known, READDED, i);
    AddedOnce(i);
  }

  lemma {:induction false} Selected12(d: Draft, n: Negation, proper: Identity -> bool, i: Identity)
    requires FrozenExact(d, n, proper) && Draft12(d).Ok?
    ensures
      var e := Draft12(d).value;
      var legacy := Covers(Legacy(n).value, i);
      Selected(Publish(n, proper), e.definitions, e.branches, i)
      == (if i in READDED then 1 else Payloads(d.branches)[i])
         + (if i in Added11() || i in Added12() then 1 else 0)
         + (if proper(i) && !legacy && i !in ADDED then 1 else 0)
  {
    hide Payloads, Fallbacks, Coherent, Agrees, Draft11, Draft12, Added11, Added12, Excludes, Without, Opaque11,
         Opaque12;
    var known, e := Payloads(d.branches), Draft12(d).value;
    Published(n, proper);
    OpaqueExcludes(n, i);
    Draft12Sound(d, known);
    SelectedIs(Publish(n, proper), e.definitions, e.branches, "1.2.0", i);
    WithoutCounts(known, READDED, i);
    AddedOnce(i);
  }

  lemma {:induction false} ProperOf(n: Negation, proper: Identity -> bool)
    requires Legacy(n).Some?
    ensures Publish(n, proper).proper == proper
  {
  }

  lemma {:induction false} AddedProper(d: Draft, n: Negation, proper: Identity -> bool, i: Identity)
    requires FrozenExact(d, n, proper) && i in ADDED
    ensures proper(i)
  {
  }

  lemma {:induction false} NotYet(d: Draft, ids: seq<Identity>, i: Identity)
    requires NotYetKnown(d, ids) && i in ids
    ensures i !in Payloads(d.branches)
  {
  }

  lemma {:induction false} NotYetIf(d: Draft, ids: seq<Identity>)
    requires forall i :: i in ids ==> i !in Payloads(d.branches)
    ensures NotYetKnown(d, ids)
  {
  }

  lemma {:induction false} NothingDroppedIf(n: Negation, proper: Identity -> bool)
    requires Legacy(n).Some?
    requires forall i :: proper(i) && Excludes(n, i) ==> Covers(Legacy(n).value, i) || i in READDED
    ensures NothingDropped(n, proper)
  {
    if n.AnyOf? {
      forall k, m | 0 < k < |n.exclusions| && 0 <= m < |n.exclusions[k].names|
        ensures Carried(n.exclusions[0], proper, Identity(n.exclusions[k].names[m], n.exclusions[k].version))
      {
        assert Covers(n.exclusions[k], Identity(n.exclusions[k].names[m], n.exclusions[k].version));
      }
    }
  }

  /**
   * The derived 1.1.0 union is unambiguous exactly when the frozen schemas anticipate none of its pairs
   * and lose none.
   */
  lemma {:induction false} Draft11Unambiguous(d: Draft, n: Negation, proper: Identity -> bool)
    requires FrozenExact(d, n, proper) && Templated(Payloads(d.branches))
    ensures Draft11(d).Ok?
    ensures Unambiguous(Publish(n, proper), Draft11(d).value)
            <==> NotYetKnown(d, Added11()) && NothingDropped(n, proper)
  {
    hide Selected, Sound, NotYetKnown, Payloads, Draft11, Added11, Added12, NothingDropped, Publish, Excludes, Legacy,
         Versioned;
    Draft11Sound(d, Payloads(d.branches));
    var c, e := Publish(n, proper), Draft11(d).value;
    assert c.proper == proper by { ProperOf(n, proper); }
    if NotYetKnown(d, Added11()) && NothingDropped(n, proper) {
      forall i | true ensures Selected(c, e.definitions, e.branches, i) == if proper(i) then 1 else 0 {
        Selected11(d, n, proper, i);
        AddedOnce(i);
        if i in ADDED { AddedProper(d, n, proper, i); }
        if i in Added11() { NotYet(d, Added11(), i); }
        if proper(i) && Excludes(n, i) { DroppedPair(n, proper, i); }
        if Covers(Legacy(n).value, i) { LegacyExcluded(n, i); }
      }
    }
    if Unambiguous(c, e) {
      forall i | i in Added11() ensures i !in Payloads(d.branches) {
        assert Selected(c, e.definitions, e.branches, i) <= 1;
        Selected11(d, n, proper, i);
        AddedOnce(i);
      }
      assert NotYetKnown(d, Added11()) by { NotYetIf(d, Added11()); }
      forall i | proper(i) && Excludes(n, i) ensures Covers(Legacy(n).value, i) || i in READDED {
        assert Selected(c, e.definitions, e.branches, i) <= 1;
        Selected11(d, n, proper, i);
        AddedOnce(i);
      }
      NothingDroppedIf(n, proper);
    }
  }

  /**
   * The derived 1.2.0 union is unambiguous exactly when the frozen schemas anticipate none of its pairs
   * and lose none.
   */
  lemma {:induction false} Draft12Unambiguous(d: Draft, n: Negation, proper: Identity -> bool)
    requires FrozenExact(d, n, proper) && Templated(Payloads(d.branches))
    ensures Draft12(d).Ok?
    ensures Unambiguous(Publish(n, proper), Draft12(d).value)
            <==> NotYetKnown(d, Added11() + Added12()) && NothingDropped(n, proper)
  {
    hide Selected, Sound, NotYetKnown, Payloads, Draft12, Added11, Added12, NothingDropped, Publish, Excludes, Legacy,
         Versioned;
    Draft12Sound(d, Payloads(d.branches));
    var c, e := Publish(n, proper), Draft12(d).value;
    assert c.proper == proper by { ProperOf(n, proper); }
    if NotYetKnown(d, Added11() + Added12()) && NothingDropped(n, proper) {
      forall i | true ensures Selected(c, e.definitions, e.branches, i) == if proper(i) then 1 else 0 {
        Selected12(d, n, proper, i);
        AddedOnce(i);
        if i in ADDED { AddedProper(d, n, proper, i); }
        if i in Added11() + Added12() { NotYet(d, Added11() + Added12(), i); }
        if proper(i) && Excludes(n, i) { DroppedPair(n, proper, i); }
        if Covers(Legacy(n).value, i) { LegacyExcluded(n, i); }
      }
    }
    if Unambiguous(c, e) {
      forall i | i in Added11() + Added12() ensures i !in Payloads(d.branches) {
        assert Selected(c, e.definitions, e.branches, i) <= 1;
        Selected12(d, n, proper, i);
        AddedOnce(i);
      }
      assert NotYetKnown(d, Added11() + Added12()) by { NotYetIf(d, Added11() + Added12()); }
      forall i | proper(i) && Excludes(n, i) ensures Covers(Legacy(n).value, i) || i in READDED {
        assert Selected(c, e.definitions, e.branches, i) <= 1;
        Selected12(d, n, proper, i);
        AddedOnce(i);
      }
      NothingDroppedIf(n, proper);
    }
  }

  // ----- a frozen pair of schemas the derivation does not serve

  const LEGACY_NAMES: seq<string> := [
    "claim_recorded", "check_recorded", "finding_recorded", "session_opened", "session_resumed", "evidence_recorded"
  ]

  function LegacyPairs(): seq<Identity> {
    Versioned(LEGACY_NAMES, "1.0.0")
  }

  function ListedDraft(): Draft {
    Draft(DefineAll(map[], LegacyPairs()), Entries(LegacyPairs()) + [Opaque("1.0.0")])
  }

  /** The opaque schema that lists each pair by itself, where the derivation expects one list of names. */
  function ListedNegation(): Negation {
    AnyOf(Exclusions(LegacyPairs()))
  }

  lemma {:induction false} LegacyPairsDistinct()
    ensures Distinct(LegacyPairs())
  {
    hide Added11, Added12;
    AddedDistinct();
    assert Added11() == Versioned(FAMILIES_1_1, "1.1.0") by { AddedIs(); }
    assert |ADDED| >= 7 && ADDED[..7] == READDED + Added11();
    forall k | 0 <= k < 6 ensures LEGACY_NAMES[k] == ADDED[if k < 5 then k + 2 else 0].name
                               && ADDED[if k < 5 then k + 2 else 0].version == "1.1.0"
    {
    }
  }

  lemma {:induction false} AddedIs()
    ensures Added11() == Versioned(FAMILIES_1_1, "1.1.0")
  {
  }

  lemma {:induction false} LegacyPairsMinor()
    ensures AllMinor(LegacyPairs() + ADDED)
  {
    hide Added11, Added12;
    AddedAllMinor();
    assert Minor("1.0.0");
  }

  lemma {:induction false} ListedSound()
    ensures Sound(ListedDraft(), multiset(LegacyPairs()), "1.0.0")
  {
    hide Agrees, Resolves, Payloads, Fallbacks, DefineAll, Added11, Added12, LegacyPairs;
    var ids, universe := LegacyPairs(), LegacyPairs() + ADDED;
    var opaques := [Opaque("1.0.0")];
    LegacyPairsMinor();
    assert Agrees(map[], universe) by { NothingDefined(universe); }
    DefineAllAgrees(map[], ids, universe);
    assert Agrees(DefineAll(map[], ids), ADDED) by { AgreesTail(DefineAll(map[], ids), ids, ADDED); }
    CountEntries(ids);
    CountAppend(Entries(ids), opaques);
    CountFirst(opaques, opaques[0], []);
    assert Payloads([]) == multiset{} && Fallbacks([]) == multiset{} by { CountNothing(); }
  }

  lemma {:induction false} CountNothing()
    ensures Payloads([]) == multiset{} && Fallbacks([]) == multiset{}
  {
  }

  lemma {:induction false} NothingDefined(ids: seq<Identity>)
    ensures Agrees(map[], ids)
  {
  }

  lemma {:induction false} AgreesTail(definitions: map<string, Definition>, a: seq<Identity>, b: seq<Identity>)
    requires Agrees(definitions, a + b)
    ensures Agrees(definitions, b)
  {
    assert forall k :: 0 <= k < |b| ==> b[k] == (a + b)[|a| + k];
  }

  /** With every pair listed by itself all but the first are lost: 1.0.0 is unambiguous and 1.1.0 is not. */
  lemma {:induction false} ListedPairsAreLost()
    ensures
      var d, n, proper := ListedDraft(), ListedNegation(), (i: Identity) => true;
      FrozenExact(d, n, proper) && Draft11(d).Ok? && !Unambiguous(Publish(n, proper), Draft11(d).value)
  {
    hide Sound, Payloads, Draft11, Added11, Added12, ListedDraft, Covers, CoveredBy, Unambiguous, Publish;
    var d, n, proper := ListedDraft(), ListedNegation(), (i: Identity) => true;
    var ids := LegacyPairs();
    ListedSound();
    ListedPayloads();
    LegacyPairsDistinct();
    forall i | true ensures Payloads(d.branches)[i] == if proper(i) && Excludes(n, i) then 1 else 0 {
      OnceCounts(ids, i);
      CoveredByExclusions(ids, i);
    }
    assert FrozenExact(d, n, proper);
    Draft11Sound(d, multiset(ids));
    LegacyPairsTemplated();
    Draft11Unambiguous(d, n, proper);
    assert !NothingDropped(n, proper) by { CheckDropped(proper); }
  }

  lemma {:induction false} ListedPayloads()
    ensures Payloads(ListedDraft().branches) == multiset(LegacyPairs())
  {
    ListedSound();
  }

  lemma {:induction false} LegacyPairsTemplated()
    ensures Templated(multiset(LegacyPairs()))
  {
    var ids := LegacyPairs();
    assert ids[0] == CLAIM_1_0 && ids[5] == EVIDENCE_1_0;
    assert forall k :: 0 <= k < |FAMILIES_1_1| ==> ids[k + 1] == Identity(FAMILIES_1_1[k], "1.0.0");
  }

  lemma {:induction false} CheckDropped(proper: Identity -> bool)
    requires proper(Identity("check_recorded", "1.0.0"))
    ensures !NothingDropped(ListedNegation(), proper)
  {
    var n, i := ListedNegation(), Identity("check_recorded", "1.0.0");
    assert n.exclusions[0].names == ["claim_recorded"] && n.exclusions[1].names == ["check_recorded"];
    assert "claim_recorded"[1] == 'l' && "check_recorded"[1] == 'h';
    assert forall k :: 0 <= k < |READDED| ==> READDED[k].version[2] != '0';
    assert !Carried(n.exclusions[0], proper, Identity(n.exclusions[1].names[0], n.exclusions[1].version));
  }
}
