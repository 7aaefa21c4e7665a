/** The bottle inventory endpoint (backend/api/inventory.ts): approved
    bottling records are summed per drink type into an object that starts
    with every known drink type at zero, and the grand total is the sum of
    that object's values. Firestore, token verification and CORS handling
    are outside calls; their results are parameters here. */
module Inventory {
  import opened JsArray
  import opened JsString

  /** `DRINK_TYPES`. */
  const DrinkTypes: seq<string> := [
    "drink_arak", "drink_gin", "drink_edv", "drink_licorice",
    "drink_brandyVS", "drink_brandyVSOP", "drink_brandyMed"
  ]

  /** A document of `factory_bottling`, reduced to the fields the endpoint
      reads. `drinkType` is "" when absent (falsy); `bottleCount` is the text
      `parseInt` sees, "" when absent. */
  datatype Bottling = Bottling(drinkType: string, decision: string, bottleCount: string)

  /** The filter of the accumulation loop. */
  predicate Contributes(r: Bottling)
  {
    r.drinkType != "" && r.decision == "approved"
  }

  /** `parseInt(r.bottleCount, 10) || 0`: NaN counts as zero. */
  function CountOf(r: Bottling): int
  {
    match ParseInt10(r.bottleCount)
    case Some(n) => n
    case None => 0
  }

  /** What one approved record adds: its count, under its drink type. */
  datatype Entry = Entry(drinkType: string, count: int)

  /** The entries of the contributing records, in order. */
  function Contributions(records: seq<Bottling>): (es: seq<Entry>)
    ensures |es| <= |records|
    ensures forall i :: 0 <= i < |es| ==> es[i].drinkType != ""
  {
    if records == [] then []
    else
      var r := records[|records| - 1];
      Contributions(records[..|records| - 1]) + (if Contributes(r) then [Entry(r.drinkType, CountOf(r))] else [])
  }

  ghost predicate Distinct(keys: seq<string>)
  {
    forall i, j :: 0 <= i < j < |keys| ==> keys[i] != keys[j]
  }

  /** The keys of `bottles` in insertion order: the drink types, then each
      other type when its first entry is met. */
  function KeyOrder(es: seq<Entry>): (keys: seq<string>)
    ensures DrinkTypes <= keys
  {
    if es == [] then DrinkTypes
    else
      var earlier := KeyOrder(es[..|es| - 1]);
      var t := es[|es| - 1].drinkType;
      if t !in earlier then earlier + [t] else earlier
  }

  /** The sum of the entries of one drink type. */
  function ApprovedFor(es: seq<Entry>, drinkType: string): int
  {
    if es == [] then 0
    else
      var e := es[|es| - 1];
      ApprovedFor(es[..|es| - 1], drinkType) + (if e.drinkType == drinkType then e.count else 0)
  }

  /** The sum of all entries. */
  function Total(es: seq<Entry>): int
  {
    if es == [] then 0 else Total(es[..|es| - 1]) + es[|es| - 1].count
  }

  /** The `bottles` object: every drink type at zero, then each entry
      adding its count under its type. */
  function Bottles(es: seq<Entry>): map<string, int>
  {
    if es == [] then map k | k in DrinkTypes :: 0
    else
      var before := Bottles(es[..|es| - 1]);
      var e := es[|es| - 1];
      before[e.drinkType := (if e.drinkType in before then before[e.drinkType] else 0) + e.count]
  }

  /** `Object.values(bottles).reduce((sum, n) => sum + n, 0)` over the keys in order. */
  function SumOver(keys: seq<string>, bottles: map<string, int>): int
    requires forall k :: k in keys ==> k in bottles
  {
    if keys == [] then 0 else SumOver(keys[..|keys| - 1], bottles) + bottles[keys[|keys| - 1]]
  }

  // ------------------------------------------------------------ lemmas

  /** One more record adds an entry exactly when it is approved and has a
      drink type. */
  lemma ContributionsStep(records: seq<Bottling>, r: Bottling)
    ensures Contributions(records + [r])
      == Contributions(records) + (if Contributes(r) then [Entry(r.drinkType, CountOf(r))] else [])
  {
    assert (records + [r])[..|records|] == records;
  }

  /** One more entry: the key list, the object and the total change as the
      loop body of the handler changes them. */
  lemma EntryStep(es: seq<Entry>, e: Entry)
    ensures KeyOrder(es + [e]) == if e.drinkType !in KeyOrder(es) then KeyOrder(es) + [e.drinkType] else KeyOrder(es)
    ensures var before := Bottles(es);
      Bottles(es + [e]) == before[e.drinkType := (if e.drinkType in before then before[e.drinkType] else 0) + e.count]
    ensures Total(es + [e]) == Total(es) + e.count
  {
    assert (es + [e])[..|es|] == es;
  }

  /** No key is listed twice. */
  lemma {:induction false} KeyOrderDistinct(es: seq<Entry>)
    ensures Distinct(KeyOrder(es))
  {
    if es == [] {
      assert Distinct(DrinkTypes);
    } else {
      KeyOrderDistinct(es[..|es| - 1]);
    }
  }

  /** A type that is not a key has received nothing. */
  lemma {:induction false} UnseenIsZero(es: seq<Entry>, drinkType: string)
    requires drinkType !in KeyOrder(es)
    ensures ApprovedFor(es, drinkType) == 0
  {
    if es != [] {
      var earlier := es[..|es| - 1];
      assert KeyOrder(earlier) <= KeyOrder(es);
      UnseenIsZero(earlier, drinkType);
    }
  }

  /** The keys of `bottles` are the listed keys, and each holds the sum of
      the entries of that type. */
  lemma {:induction false} BottlesMeaning(es: seq<Entry>)
    ensures forall k :: k in Bottles(es) <==> k in KeyOrder(es)
    ensures forall k :: k in Bottles(es) ==> Bottles(es)[k] == ApprovedFor(es, k)
  {
    if es != [] {
      var earlier := es[..|es| - 1];
      var e := es[|es| - 1];
      BottlesMeaning(earlier);
      if e.drinkType !in KeyOrder(earlier) {
        UnseenIsZero(earlier, e.drinkType);
      }
    }
  }

  /** A type is a key of the object exactly when it is listed. */
  lemma KeyedIffListed(es: seq<Entry>, t: string)
    ensures t in Bottles(es) <==> t in KeyOrder(es)
  {
    BottlesMeaning(es);
  }

  /** Every listed key is in the object. */
  lemma {:induction false} ListedAreKeyed(es: seq<Entry>)
    ensures forall k :: k in KeyOrder(es) ==> k in Bottles(es)
  {
    if es != [] {
      ListedAreKeyed(es[..|es| - 1]);
    }
  }

  /** Every drink type of the list is a key, whatever the records. */
  lemma AllDrinkTypesPresent(es: seq<Entry>)
    ensures forall i :: 0 <= i < |DrinkTypes| ==> DrinkTypes[i] in Bottles(es)
    ensures forall i :: 0 <= i < |DrinkTypes| ==> Bottles(es)[DrinkTypes[i]] == ApprovedFor(es, DrinkTypes[i])
  {
    BottlesMeaning(es);
    var keys := KeyOrder(es);
    forall i | 0 <= i < |DrinkTypes| ensures DrinkTypes[i] in keys {
      assert keys[i] == DrinkTypes[i];
    }
  }

  /** With no records every drink type is at zero and nothing else is there. */
  lemma NoRecordsAllZero()
    ensures Contributions([]) == []
    ensures Bottles([]) == map k | k in DrinkTypes :: 0
    ensures Total([]) == 0
  {
  }

  /** A record that is not approved, or has no drink type, changes nothing. */
  lemma NonContributingIgnored(records: seq<Bottling>, r: Bottling)
    requires !Contributes(r)
    ensures Contributions(records + [r]) == Contributions(records)
  {
    ContributionsStep(records, r);
  }

  /** An approved record of an unknown type gets its own key, at the end,
      holding its count. */
  lemma {:induction false} NewTypeGetsOwnKey(records: seq<Bottling>, r: Bottling)
    requires Contributes(r) && r.drinkType !in KeyOrder(Contributions(records))
    ensures KeyOrder(Contributions(records + [r])) == KeyOrder(Contributions(records)) + [r.drinkType]
    ensures Bottles(Contributions(records + [r]))[r.drinkType] == CountOf(r)
  {
    var es := Contributions(records);
    var e := Entry(r.drinkType, CountOf(r));
    ContributionsStep(records, r);
    EntryStep(es, e);
    BottlesMeaning(es);
  }

  /** An approved record whose count does not parse adds nothing: the
      total stays, and the object gains at most its type's key, at zero. */
  lemma UnparseableAddsNothing(records: seq<Bottling>, r: Bottling)
    requires Contributes(r) && ParseInt10(r.bottleCount).None?
    ensures var before := Bottles(Contributions(records));
      var after := Bottles(Contributions(records + [r]));
      && (r.drinkType in before ==> after == before)
      && (r.drinkType !in before ==> after == before[r.drinkType := 0])
    ensures Total(Contributions(records + [r])) == Total(Contributions(records))
  {
    ContributionsStep(records, r);
    EntryStep(Contributions(records), Entry(r.drinkType, 0));
  }

  /** A count written as a decimal number is read back exactly. */
  lemma CountOfDecimal(drinkType: string, n: int)
    ensures CountOf(Bottling(drinkType, "approved", Decimal(n))) == n
  {
    ParseIntOfDecimal("", n, "");
    assert "" + Decimal(n) + "" == Decimal(n);
  }

  lemma {:induction false} SumOverAgree(keys: seq<string>, a: map<string, int>, b: map<string, int>)
    requires forall k :: k in keys ==> k in a && k in b && a[k] == b[k]
    ensures SumOver(keys, a) == SumOver(keys, b)
  {
    if keys != [] {
      SumOverAgree(keys[..|keys| - 1], a, b);
    }
  }

  lemma {:induction false} SumOverZero(keys: seq<string>, b: map<string, int>)
    requires forall k :: k in keys ==> k in b && b[k] == 0
    ensures SumOver(keys, b) == 0
  {
    if keys != [] {
      SumOverZero(keys[..|keys| - 1], b);
    }
  }

  /** Raising one key's value raises the sum by as much. */
  lemma {:induction false} SumOverBump(keys: seq<string>, b: map<string, int>, t: string, c: int)
    requires forall k :: k in keys ==> k in b
    requires Distinct(keys) && t in keys
    ensures t in b
    ensures SumOver(keys, b[t := b[t] + c]) == SumOver(keys, b) + c
  {
    var b' := b[t := b[t] + c];
    var init := keys[..|keys| - 1];
    var last := keys[|keys| - 1];
    if last == t {
      assert t !in init by {
        forall i | 0 <= i < |init| ensures init[i] != t {
          assert init[i] == keys[i];
        }
      }
      SumOverAgree(init, b', b);
    } else {
      assert t in init;
      assert Distinct(init) by {
        forall i, j | 0 <= i < j < |init| ensures init[i] != init[j] {
          assert init[i] == keys[i] && init[j] == keys[j];
        }
      }
      SumOverBump(init, b, t, c);
    }
  }

  /** `total` is the sum of the values of `bottles`, and that is the sum of
      all entries. */
  lemma {:induction false} TotalIsSumOfBottles(es: seq<Entry>)
    ensures forall k :: k in KeyOrder(es) ==> k in Bottles(es)
    ensures SumOver(KeyOrder(es), Bottles(es)) == Total(es)
  {
    ListedAreKeyed(es);
    if es == [] {
      SumOverZero(DrinkTypes, Bottles(es));
    } else {
      var earlier := es[..|es| - 1];
      var e := es[|es| - 1];
      assert es == earlier + [e];
      TotalIsSumOfBottles(earlier);
      SumStep(earlier, e);
    }
  }

  /** One more entry raises the reduce over the object by its count. */
  lemma SumStep(es: seq<Entry>, e: Entry)
    requires forall k :: k in KeyOrder(es) ==> k in Bottles(es)
    ensures forall k :: k in KeyOrder(es + [e]) ==> k in Bottles(es + [e])
    ensures SumOver(KeyOrder(es + [e]), Bottles(es + [e])) == SumOver(KeyOrder(es), Bottles(es)) + e.count
  {
    ListedAreKeyed(es + [e]);
    EntryStep(es, e);
    var keys0 := KeyOrder(es);
    var bottles0 := Bottles(es);
    var t := e.drinkType;
    KeyedIffListed(es, t);
    if t in bottles0 {
      KeyOrderDistinct(es);
      SumOverBump(keys0, bottles0, t, e.count);
    } else {
      var keys := keys0 + [t];
      assert keys[..|keys| - 1] == keys0;
      SumOverAgree(keys0, Bottles(es + [e]), bottles0);
    }
  }

  // ---------------------------------------------------------- the endpoint

  /** The accumulation of the handler: `bottles` starts with every drink
      type at zero, each contributing record adds its count under its type
      (a key is appended when first written), and `total` is the reduce
      over the values. */
  method Aggregate(records: seq<Bottling>) returns (keys: seq<string>, bottles: map<string, int>, total: int)
    ensures keys == KeyOrder(Contributions(records))
    ensures bottles == Bottles(Contributions(records))
    ensures total == Total(Contributions(records))
  {
    keys, bottles := ZeroedDrinkTypes();
    assert records[..0] == [];
    var j := 0;
    while j < |records|
      invariant 0 <= j <= |records|
      invariant keys == KeyOrder(Contributions(records[..j]))
      invariant bottles == Bottles(Contributions(records[..j]))
    {
      keys, bottles := AddRecord(keys, bottles, records, j);
      j := j + 1;
    }
    assert records[..|records|] == records;
    ListedAreKeyed(Contributions(records));
    total := SumValues(keys, bottles);
    TotalIsSumOfBottles(Contributions(records));
  }

  /** `DRINK_TYPES.forEach(dt => { bottles[dt] = 0; })` on an empty object. */
  method ZeroedDrinkTypes() returns (keys: seq<string>, bottles: map<string, int>)
    ensures keys == KeyOrder([]) && bottles == Bottles([])
  {
    keys := [];
    bottles := map[];
    var i := 0;
    while i < |DrinkTypes|
      invariant 0 <= i <= |DrinkTypes|
      invariant keys == DrinkTypes[..i]
      invariant bottles == map k | k in keys :: 0
    {
      var dt := DrinkTypes[i];
      if dt !in bottles {
        keys := keys + [dt];
      }
      bottles := bottles[dt := 0];
      assert DrinkTypes[..i + 1] == DrinkTypes[..i] + [dt];
      i := i + 1;
    }
    assert keys == DrinkTypes;
    NoRecordsAllZero();
  }

  /** The `forEach` callback: an approved record with a drink type adds
      its count under its type. */
  method AddRecord(keys: seq<string>, bottles: map<string, int>, records: seq<Bottling>, j: nat)
    returns (keys': seq<string>, bottles': map<string, int>)
    requires j < |records|
    requires keys == KeyOrder(Contributions(records[..j])) && bottles == Bottles(Contributions(records[..j]))
    ensures keys' == KeyOrder(Contributions(records[..j + 1])) && bottles' == Bottles(Contributions(records[..j + 1]))
  {
    var r := records[j];
    ghost var done := records[..j];
    assert records[..j + 1] == done + [r];
    ContributionsStep(done, r);
    if r.drinkType != "" && r.decision == "approved" {
      var count := CountOf(r);
      keys', bottles' := AddEntry(keys, bottles, Entry(r.drinkType, count), Contributions(done));
    } else {
      keys', bottles' := keys, bottles;
      assert Contributions(done) + [] == Contributions(done);
    }
  }

  /** `bottles[r.drinkType] = (bottles[r.drinkType] || 0) + count`, where
      assigning a key the object lacks appends it to the key order. */
  method AddEntry(keys: seq<string>, bottles: map<string, int>, e: Entry, ghost es: seq<Entry>)
    returns (keys': seq<string>, bottles': map<string, int>)
    requires keys == KeyOrder(es) && bottles == Bottles(es)
    ensures keys' == KeyOrder(es + [e]) && bottles' == Bottles(es + [e])
  {
    var t := e.drinkType;
    var prior := if t in bottles then bottles[t] else 0;
    KeyedIffListed(es, t);
    EntryStep(es, e);
    if t in bottles {
      keys' := keys;
    } else {
      keys' := keys + [t];
    }
    bottles' := bottles[t := prior + e.count];
  }

  /** `Object.values(bottles).reduce((sum, n) => sum + n, 0)`. */
  method SumValues(keys: seq<string>, bottles: map<string, int>) returns (total: int)
    requires forall k :: k in keys ==> k in bottles
    ensures total == SumOver(keys, bottles)
  {
    total := 0;
    var m := 0;
    while m < |keys|
      invariant 0 <= m <= |keys|
      invariant total == SumOver(keys[..m], bottles)
    {
      assert keys[..m + 1][..m] == keys[..m];
      total := total + bottles[keys[m]];
      m := m + 1;
    }
    assert keys[..m] == keys;
  }

  /** The answers of the endpoint. */
  datatype Response =
    | MethodNotAllowed          // 405
    | Unauthorized              // 401
    | ServerError               // 500: reading the collection failed
    | Inventory(keys: seq<string>, bottles: map<string, int>, total: int, updatedAt: string)

  /** `handler`. `None` when the CORS helper has already answered (a
      preflight); then a method other than GET is refused before the token
      is looked at, and a missing or invalid token is refused before the
      collection is read. `snapshot` is the collection as read, `None` when
      reading it failed. */
  method Handler(corsHandled: bool, httpMethod: string, tokenValid: bool,
                 snapshot: Option<seq<Bottling>>, updatedAt: string) returns (resp: Option<Response>)
    ensures corsHandled <==> resp.None?
    ensures !corsHandled && httpMethod != "GET" ==> resp == Some(MethodNotAllowed)
    ensures !corsHandled && httpMethod == "GET" && !tokenValid ==> resp == Some(Unauthorized)
    ensures !corsHandled && httpMethod == "GET" && tokenValid ==>
      match snapshot
      case None => resp == Some(ServerError)
      case Some(records) =>
        var es := Contributions(records);
        resp == Some(Inventory(KeyOrder(es), Bottles(es), Total(es), updatedAt))
  {
    if corsHandled {
      return None;
    }
    if httpMethod != "GET" {
      return Some(MethodNotAllowed);
    }
    if !tokenValid {
      return Some(Unauthorized);
    }
    match snapshot
    case None =>
      return Some(ServerError);
    case Some(records) =>
      var keys, bottles, total := Aggregate(records);
      return Some(Inventory(keys, bottles, total, updatedAt));
  }
}
