/** How the controllers recover the owner of a secret from its name. */
module OwnerNames {
  import opened Common
  import opened Text

  const INIT_ROOTCERT := "-init-rootcert"
  const CA_CRYPTO := "-ca-crypto"
  const TLSCA_CRYPTO := "-tlsca-crypto"

  /** Orderer and peer: everything before the last two items of an init-rootcert
      secret, otherwise everything between the first and the last item. */
  function NodeOwner(secret: string): Option<string> {
    var items := Split(secret, '-');
    if |items| < 3 then None
    else if Contains(secret, INIT_ROOTCERT) then Some(Join(items[..|items| - 2], '-'))
    else Some(Join(items[1..|items| - 1], '-'))
  }

  /** CA: everything before the last two items of a crypto secret, or before the
      last item of any other CA secret.  The cuts never run short, see
      CAOwnerIsDefined; one that leaves no item gives the empty name. */
  function CAOwner(secret: string): Option<string> {
    var items := Split(secret, '-');
    if Contains(secret, CA_CRYPTO) || Contains(secret, TLSCA_CRYPTO) then
      CAOwnerIsDefined(secret);
      Some(Join(items[..|items| - 2], '-'))
    else if Contains(secret, "-ca") || Contains(secret, "-tlsca") then
      Some(Join(items[..|items| - 1], '-'))
    else None
  }

  // ----------------------------------------------------------------- strings

  lemma ContainsAt(a: string, sub: string, b: string)
    ensures Contains(a + sub + b, sub)
  {
    assert Occurs(a + sub + b, sub, |a|);
  }

  lemma ContainsGrows(a: string, b: string, sub: string)
    requires Contains(a, sub)
    ensures Contains(a + b, sub)
  {
    var i :| 0 <= i <= |a| && Occurs(a, sub, i);
    assert (a + b)[i..i + |sub|] == a[i..i + |sub|];
    assert Occurs(a + b, sub, i);
  }

  /** A text whose last character does not occur in `b` cannot end inside it. */
  lemma ContainsOnlyBefore(a: string, b: string, sub: string)
    requires sub != "" && sub[|sub| - 1] !in b
    ensures Contains(a + b, sub) <==> Contains(a, sub)
  {
    if Contains(a, sub) {
      ContainsGrows(a, b, sub);
    }
    if Contains(a + b, sub) {
      var s := a + b;
      var i :| 0 <= i <= |s| && Occurs(s, sub, i);
      var last := i + |sub| - 1;
      assert s[i..i + |sub|][|sub| - 1] == s[last];
      assert s[|a|..] == b;
      assert forall k | |a| <= k < |s| :: s[k] == s[|a|..][k - |a|];
      assert s[i..i + |sub|] == a[i..i + |sub|];
      assert Occurs(a, sub, i);
    }
  }

  /** The pieces of a name with a hyphen-free suffix. */
  lemma SplitSuffix(name: string, suffix: string)
    requires '-' !in suffix
    ensures Split(name + "-" + suffix, '-') == Split(name, '-') + [suffix]
  {
    SplitConcat(name, suffix, '-');
    SplitAtom(suffix, '-');
    assert name + "-" + suffix == name + ['-'] + suffix;
  }

  lemma SplitPrefix(prefix: string, name: string)
    requires '-' !in prefix
    ensures Split(prefix + "-" + name, '-') == [prefix] + Split(name, '-')
  {
    SplitConcat(prefix, name, '-');
    SplitAtom(prefix, '-');
    assert prefix + "-" + name == prefix + ['-'] + name;
  }

  // -------------------------------------------------------- orderer and peer

  function NodeSecret(prefix: string, instance: string, kind: string): string {
    prefix + "-" + instance + "-" + kind
  }

  lemma NodeSecretItems(prefix: string, instance: string, kind: string)
    requires '-' !in prefix && '-' !in kind
    ensures Split(NodeSecret(prefix, instance, kind), '-') == [prefix] + Split(instance, '-') + [kind]
  {
    SplitSuffix(prefix + "-" + instance, kind);
    SplitPrefix(prefix, instance);
  }

  /** The owner of an init-rootcert secret is recovered for every instance name. */
  lemma RootcertOwner(instance: string)
    ensures NodeOwner(instance + INIT_ROOTCERT) == Some(instance)
  {
    var secret := instance + INIT_ROOTCERT;
    assert secret == instance + "-" + "init" + "-" + "rootcert";
    SplitSuffix(instance + "-" + "init", "rootcert");
    SplitSuffix(instance, "init");
    var items := Split(secret, '-');
    assert items == Split(instance, '-') + ["init", "rootcert"];
    assert items[..|items| - 2] == Split(instance, '-');
    JoinSplit(instance, '-');
    ContainsAt(instance, INIT_ROOTCERT, "");
    assert secret == instance + INIT_ROOTCERT + "";
  }

  predicate Repeats(items: seq<string>, item: string) {
    forall i | 0 <= i < |items| :: items[i] == item
  }

  /** Dropping the last item instead of the first gives the same list only if
      all items are alike. */
  lemma ShiftedIsSame(items: seq<string>, first: string)
    requires items != []
    ensures [first] + items[..|items| - 1] == items <==> Repeats(items, first)
  {
    var shifted := [first] + items[..|items| - 1];
    if shifted == items {
      AllAlike(items, first, |items|);
    }
  }

  lemma {:induction false} AllAlike(items: seq<string>, first: string, n: nat)
    requires items != [] && n <= |items| && [first] + items[..|items| - 1] == items
    ensures Repeats(items[..n], first)
  {
    if n > 0 {
      AllAlike(items, first, n - 1);
      var shifted := [first] + items[..|items| - 1];
      assert items[n - 1] == shifted[n - 1];
      if n > 1 {
        assert shifted[n - 1] == items[n - 2];
        assert items[n - 2] == items[..n - 1][n - 2];
      }
    }
  }

  /** For hyphen-free prefix and kind, the owner of prefix-instance-kind is
      recovered, hyphens in the instance name included, exactly when the secret's
      name does not contain the init-rootcert marker (or the instance name is
      nothing but the prefix repeated). */
  lemma NodeSecretOwner(prefix: string, instance: string, kind: string)
    requires '-' !in prefix && '-' !in kind
    ensures NodeOwner(NodeSecret(prefix, instance, kind)) == Some(instance)
            <==> !Contains(NodeSecret(prefix, instance, kind), INIT_ROOTCERT) || Repeats(Split(instance, '-'), prefix)
  {
    var secret := NodeSecret(prefix, instance, kind);
    var mine := Split(instance, '-');
    NodeSecretItems(prefix, instance, kind);
    JoinSplit(instance, '-');
    var items := Split(secret, '-');
    if !Contains(secret, INIT_ROOTCERT) {
      assert items[1..|items| - 1] == mine;
    } else {
      var shifted := [prefix] + mine[..|mine| - 1];
      assert items[..|items| - 2] == shifted;
      forall i | 0 <= i < |shifted| ensures '-' !in shifted[i] {
        if i > 0 && '-' in shifted[i] {
          assert shifted[i] == mine[i - 1];
          PieceChars(instance, '-', i - 1, '-');
        }
      }
      SplitJoin(shifted, '-');
      ShiftedIsSame(mine, prefix);
    }
  }

  // --------------------------------------------------------------------- CA

  lemma CAOwnerIsDefined(secret: string)
    requires Contains(secret, CA_CRYPTO) || Contains(secret, TLSCA_CRYPTO)
    ensures |Split(secret, '-')| >= 2
  {
    SplitCount(secret, '-');
    var marker := if Contains(secret, CA_CRYPTO) then CA_CRYPTO else TLSCA_CRYPTO;
    var i :| 0 <= i <= |secret| && Occurs(secret, marker, i);
    assert secret[i..i + |marker|][0] == secret[i];
  }

  /** Both crypto secrets of every instance are recovered ... */
  lemma CACryptoOwner(instance: string)
    ensures CAOwner(instance + CA_CRYPTO) == Some(instance)
    ensures CAOwner(instance + TLSCA_CRYPTO) == Some(instance)
  {
    CryptoOwner(instance, "ca", CA_CRYPTO);
    CryptoOwner(instance, "tlsca", TLSCA_CRYPTO);
  }

  lemma CryptoOwner(instance: string, kind: string, marker: string)
    requires '-' !in kind && marker == "-" + kind + "-" + "crypto"
    requires marker == CA_CRYPTO || marker == TLSCA_CRYPTO
    ensures CAOwner(instance + marker) == Some(instance)
  {
    var secret := instance + marker;
    assert secret == instance + "-" + kind + "-" + "crypto";
    CryptoItems(instance, kind);
    JoinSplit(instance, '-');
    ContainsAt(instance, marker, "");
    assert secret == instance + marker + "";
  }

  lemma CryptoItems(instance: string, kind: string)
    requires '-' !in kind
    ensures var items := Split(instance + "-" + kind + "-" + "crypto", '-');
            |items| >= 2 && items[..|items| - 2] == Split(instance, '-')
  {
    SplitSuffix(instance + "-" + kind, "crypto");
    SplitSuffix(instance, kind);
    var items := Split(instance + "-" + kind + "-" + "crypto", '-');
    assert items == Split(instance, '-') + [kind, "crypto"];
  }

  /** A secret is left alone exactly if its name holds neither "-ca" nor "-tlsca". */
  lemma CAOwnerExactly(secret: string)
    ensures CAOwner(secret) == None <==> !Contains(secret, "-ca") && !Contains(secret, "-tlsca")
  {
    assert CA_CRYPTO == "-ca" + "-crypto" && TLSCA_CRYPTO == "-tlsca" + "-crypto";
    if Contains(secret, CA_CRYPTO) {
      ContainsPart(secret, "-ca", "-crypto");
    }
    if Contains(secret, TLSCA_CRYPTO) {
      ContainsPart(secret, "-tlsca", "-crypto");
    }
  }

  lemma ContainsPart(s: string, sub: string, more: string)
    requires Contains(s, sub + more)
    ensures Contains(s, sub)
  {
    var i :| 0 <= i <= |s| && Occurs(s, sub + more, i);
    assert s[i..i + |sub|] == s[i..i + |sub + more|][..|sub|] == sub;
    assert Occurs(s, sub, i);
  }

  /** An orderer or peer secret is left alone exactly if its name holds less than two
      hyphens. */
  lemma NodeOwnerExactly(secret: string)
    ensures NodeOwner(secret) == None <==> Hyphens(secret) < 2
  {
    PiecesAreHyphens(secret);
  }

  function Hyphens(s: string): nat {
    if s == "" then 0 else (if s[0] == '-' then 1 else 0) + Hyphens(s[1..])
  }

  lemma {:induction false} PiecesAreHyphens(s: string)
    ensures |Split(s, '-')| == Hyphens(s) + 1
  {
    if s != "" {
      PiecesAreHyphens(s[1..]);
    }
  }

  predicate HoldsMarker(name: string) {
    Contains(name, CA_CRYPTO) || Contains(name, TLSCA_CRYPTO)
  }

  lemma PlainMarker(instance: string, suffix: string)
    requires suffix == "-ca" || suffix == "-tlsca"
    ensures HoldsMarker(instance + suffix) <==> HoldsMarker(instance)
    ensures Contains(instance + suffix, suffix)
  {
    ContainsOnlyBefore(instance, suffix, CA_CRYPTO);
    ContainsOnlyBefore(instance, suffix, TLSCA_CRYPTO);
    ContainsAt(instance, suffix, "");
    assert instance + suffix + "" == instance + suffix;
  }

  /** ... and the plain secrets exactly of those whose name does not itself hold
      a crypto marker. */
  lemma CAPlainOwner(instance: string, kind: string)
    requires kind == "ca" || kind == "tlsca"
    ensures CAOwner(instance + "-" + kind) == Some(instance) <==> !HoldsMarker(instance)
  {
    var secret := instance + "-" + kind;
    assert secret == instance + ("-" + kind);
    assert "-" + kind == "-ca" || "-" + kind == "-tlsca";
    PlainMarker(instance, "-" + kind);
    SplitSuffix(instance, kind);
    JoinSplit(instance, '-');
    var items, mine := Split(secret, '-'), Split(instance, '-');
    if HoldsMarker(instance) {
      CAOwnerIsDefined(instance);
      assert items[..|items| - 2] == mine[..|mine| - 1];
      CutIsShorter(mine);
    } else {
      assert items[..|items| - 1] == mine;
    }
  }

  /** Names that hold a marker are misread: the owner of prefix-name-init-rootcert-kind
      is not name-init-rootcert, nor that of name-ca-crypto-ca name-ca-crypto. */
  lemma MarkedNamesAreMisread(prefix: string, name: string, kind: string)
    requires '-' !in prefix && '-' !in kind
    ensures NodeOwner(NodeSecret(prefix, name + INIT_ROOTCERT, kind)) != Some(name + INIT_ROOTCERT)
    ensures CAOwner(name + CA_CRYPTO + "-" + "ca") != Some(name + CA_CRYPTO)
  {
    var instance := name + INIT_ROOTCERT;
    assert instance == name + "-" + "init" + "-" + "rootcert";
    SplitSuffix(name + "-" + "init", "rootcert");
    SplitSuffix(name, "init");
    var items := Split(instance, '-');
    assert items[|items| - 2] == "init" && items[|items| - 1] == "rootcert";
    assert !Repeats(items, prefix);
    assert NodeSecret(prefix, instance, kind) == (prefix + "-" + name) + INIT_ROOTCERT + ("-" + kind);
    ContainsAt(prefix + "-" + name, INIT_ROOTCERT, "-" + kind);
    NodeSecretOwner(prefix, instance, kind);
    assert name + CA_CRYPTO + "" == name + CA_CRYPTO;
    ContainsAt(name, CA_CRYPTO, "");
    CAPlainOwner(name + CA_CRYPTO, "ca");
  }

  /** Dropping the last item of a name never gives the name back, provided
      something is left or the item is not empty. */
  lemma CutIsShorter(items: seq<string>)
    requires |items| >= 2
    ensures |Join(items[..|items| - 1], '-')| < |Join(items, '-')|
  {
    JoinLength(items[..|items| - 1], items[|items| - 1]);
    assert items[..|items| - 1] + [items[|items| - 1]] == items;
  }

  lemma {:induction false} JoinLength(items: seq<string>, last: string)
    requires items != []
    ensures |Join(items + [last], '-')| == |Join(items, '-')| + 1 + |last|
  {
    if |items| == 1 {
      assert (items + [last])[1..] == [last];
    } else {
      JoinLength(items[1..], last);
      assert (items + [last])[1..] == items[1..] + [last];
    }
  }
}
