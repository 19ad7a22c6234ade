/** The chained hash table of src/symbols.c. */
module SymbolTable {
  import opened Results
  import opened Operators
  import opened Symbols

  // ----- the hash -----

  const SHASHSIZE := 4096
  const N_HASH_BITS := 12

  /** Fletcher's checksum in two unsigned bytes. */
  function Fletcher(s: string, a: nat, b: nat): (nat, nat) {
    if s == [] then (a, b)
    else
      var a' := (a + s[0] as int) % 256;
      Fletcher(s[1..], a', (b + a') % 256)
  }

  /** The two bytes side by side, as many bits of them as the table needs. */
  function Masked(a: nat, b: nat): (h: nat)
    ensures h < SHASHSIZE
  {
    (256 * a + b) % SHASHSIZE
  }

  /** The source masks with SHASHAND. */
  lemma MaskedIsAnd(a: nat, b: nat)
    ensures Masked(a, b) == BitAnd(256 * a + b, SHASHSIZE - 1)
  {
    LowMask(256 * a + b, N_HASH_BITS);
    assert Pow2(4) == 16 && Pow2(8) == 256 && Pow2(12) == 4096;
  }

  /** hash1 */
  function Hash(s: string): (h: nat)
    ensures h < SHASHSIZE
  {
    var (a, b) := Fletcher(s, 0, 0);
    Masked(a, b)
  }

  method Hash1(s: string) returns (h: nat)
    ensures h == Hash(s)
  {
    var a: nat, b: nat, i := 0, 0, 0;
    while i < |s|
      invariant 0 <= i <= |s| && Fletcher(s[i..], a, b) == Fletcher(s, 0, 0)
    {
      a := (a + s[i] as int) % 256;
      b := (b + a) % 256;
      assert s[i..][1..] == s[i + 1..];
      i := i + 1;
    }
    MaskedIsAnd(a, b);
    h := BitAnd(256 * a + b, SHASHSIZE - 1);
  }

  // ----- chains -----

  class Symbol {
    const name: string
    var next: Symbol?
    var arg: Arg
    var ref: bool
    var order: nat

    constructor (name: string, order: nat)
      ensures this.name == name && next == null && arg == Arg(0, true) && !ref && this.order == order
    {
      this.name, next, arg, ref, this.order := name, null, Arg(0, true), false, order;
    }
  }

  type Chain = seq<Symbol>
  type Chains = seq<Chain>

  /** The search in findsymbol: the first symbol of that name. */
  function FirstNamed(chain: Chain, name: string): Option<Symbol> {
    if chain == [] then None
    else if chain[0].name == name then Some(chain[0])
    else FirstNamed(chain[1..], name)
  }

  function Lookup(chains: Chains, name: string): Option<Symbol>
    requires |chains| == SHASHSIZE
  {
    FirstNamed(chains[Hash(name)], name)
  }

  /** CreateSymbol puts the new symbol in front of its bucket. */
  function Added(chains: Chains, sym: Symbol): Chains
    requires |chains| == SHASHSIZE
  {
    chains[Hash(sym.name) := [sym] + chains[Hash(sym.name)]]
  }

  /** Every symbol is in the bucket of its hash. */
  ghost predicate InBuckets(chains: Chains)
    requires |chains| == SHASHSIZE
  {
    forall b, i | 0 <= b < SHASHSIZE && 0 <= i < |chains[b]| :: Hash(chains[b][i].name) == b
  }

  /** No name occurs twice. */
  predicate Distinct(chain: Chain) {
    chain == [] || (FirstNamed(chain[1..], chain[0].name).None? && Distinct(chain[1..]))
  }

  ghost predicate NoDuplicates(chains: Chains)
    requires |chains| == SHASHSIZE
  {
    forall b | 0 <= b < SHASHSIZE :: Distinct(chains[b])
  }

  lemma {:induction false} FirstNamedFinds(chain: Chain, name: string, i: nat)
    requires i < |chain| && chain[i].name == name
    ensures FirstNamed(chain, name).Some?
  {
    if chain[0].name != name {
      FirstNamedFinds(chain[1..], name, i - 1);
    }
  }

  lemma {:induction false} FirstNamedIsOne(chain: Chain, name: string)
    requires FirstNamed(chain, name).Some?
    ensures FirstNamed(chain, name).value in chain && FirstNamed(chain, name).value.name == name
  {
    if chain[0].name != name {
      FirstNamedIsOne(chain[1..], name);
    }
  }

  /** Lookup after create returns the new symbol; every other lookup is as before. */
  lemma CreateThenLookup(chains: Chains, sym: Symbol, name: string)
    requires |chains| == SHASHSIZE
    ensures Lookup(Added(chains, sym), name) == if name == sym.name then Some(sym) else Lookup(chains, name)
  {
    var h := Hash(sym.name);
    assert ([sym] + chains[h])[1..] == chains[h];
  }

  lemma {:induction false} DistinctPlaces(chain: Chain, i: nat, j: nat)
    requires Distinct(chain) && i < |chain| && j < |chain| && chain[i].name == chain[j].name
    ensures i == j
  {
    if i != 0 && j != 0 {
      DistinctPlaces(chain[1..], i - 1, j - 1);
    } else if i != j {
      FirstNamedFinds(chain[1..], chain[0].name, if i == 0 then j - 1 else i - 1);
    }
  }

  /** A mangled name has at most one place in the whole table. */
  lemma NoNameTwice(chains: Chains, b: nat, i: nat, d: nat, j: nat)
    requires |chains| == SHASHSIZE && InBuckets(chains) && NoDuplicates(chains)
    requires b < SHASHSIZE && i < |chains[b]| && d < SHASHSIZE && j < |chains[d]|
    requires chains[b][i].name == chains[d][j].name
    ensures b == d && i == j
  {
    assert b == d;
    DistinctPlaces(chains[b], i, j);
  }

  /** Created only where it is not found, a name is never there twice. */
  lemma CreateKeepsDistinct(chains: Chains, sym: Symbol)
    requires |chains| == SHASHSIZE && InBuckets(chains) && NoDuplicates(chains)
    ensures InBuckets(Added(chains, sym))
    ensures NoDuplicates(Added(chains, sym)) <==> Lookup(chains, sym.name).None?
  {
    var h := Hash(sym.name);
    assert ([sym] + chains[h])[1..] == chains[h];
    assert Added(chains, sym)[h] == [sym] + chains[h];
  }

  lemma SetTwice<K, V>(m: map<K, V>, m': map<K, V>, k: K, u: V, v: V)
    requires m' == if k in m then m else m[k := u]
    ensures m'[k := v] == m[k := v]
  {}

  // ----- the table -----

  /** The chains hold the symbols of this map, each in the bucket of its hash, and none of its
      names twice. */
  ghost predicate Maps(chains: Chains, contents: map<string, Symbol>)
    requires |chains| == SHASHSIZE
  {
    && InBuckets(chains) && NoDuplicates(chains)
    && forall name: string :: Lookup(chains, name) == if name in contents then Some(contents[name]) else None
  }

  ghost predicate Named(nodes: set<Symbol>, contents: map<string, Symbol>) {
    forall name | name in contents :: contents[name] in nodes && contents[name].name == name
  }

  lemma CreateMaps(chains: Chains, contents: map<string, Symbol>, sym: Symbol)
    requires |chains| == SHASHSIZE && Maps(chains, contents) && sym.name !in contents
    ensures Maps(Added(chains, sym), contents[sym.name := sym])
  {
    assert Lookup(chains, sym.name).None?;
    CreateKeepsDistinct(chains, sym);
    forall name: string
      ensures Lookup(Added(chains, sym), name) == if name == sym.name then Some(sym) else Lookup(chains, name)
    {
      CreateThenLookup(chains, sym, name);
    }
  }

  class Table {
    const SHash: array<Symbol?>
    /** The symbols of each bucket in the order of their links, and all of them. */
    ghost var chains: Chains
    ghost var nodes: set<Symbol>
    ghost var contents: map<string, Symbol>
    /** The map the table stands for. */
    ghost var entries: Syms

    /** node is where the chain from i on begins. */
    ghost predicate StartsAt(chain: Chain, i: nat, node: Symbol?) {
      i <= |chain| && node == if i < |chain| then chain[i] else null
    }

    ghost predicate Linked()
      reads this, SHash, nodes`next
    {
      && SHash.Length == SHASHSIZE == |chains|
      && (forall b, i | 0 <= b < SHASHSIZE && 0 <= i < |chains[b]| :: chains[b][i] in nodes)
      && (forall b | 0 <= b < SHASHSIZE :: StartsAt(chains[b], 0, SHash[b]))
      && (forall b, i | 0 <= b < SHASHSIZE && 0 <= i < |chains[b]| :: StartsAt(chains[b], i + 1, chains[b][i].next))
    }

    /** Every name is found, and nothing else. */
    ghost predicate Found()
      reads `chains, `nodes, `contents
    {
      |chains| == SHASHSIZE && Maps(chains, contents) && Named(nodes, contents)
    }

    ghost predicate Recorded()
      reads `nodes, `contents, `entries, nodes`arg, nodes`ref
    {
      && Named(nodes, contents) && entries.Keys == contents.Keys
      && forall name | name in contents :: entries[name] == Sym(contents[name].arg, contents[name].ref)
    }

    ghost predicate Valid()
      reads this, SHash, nodes
    {
      Linked() && Found() && Recorded()
    }

    /** Validity as the rest of the assembler carries it, folded up. */
    ghost predicate Whole(n: nat)
      reads this, SHash, nodes
      decreases n
    {
      n == 0 || ((forall key: nat :: Opened(OfTable, key) ==> Valid()) && Whole(n - 1))
    }

    constructor ()
      ensures Valid() && fresh(SHash) && nodes == {} && entries == map[]
    {
      SHash := new Symbol?[SHASHSIZE](_ => null);
      chains := seq(SHASHSIZE, _ => []);
      nodes, contents, entries := {}, map[], map[];
    }

    /** The loop of findsymbol. */
    method Search(key: string) returns (sym: Symbol?)
      requires Linked()
      ensures sym == match Lookup(chains, key) case Some(found) => found case None => null
    {
      var h := Hash1(key);
      sym := SHash[h];
      ghost var i := 0;
      while sym != null
        invariant 0 <= i <= |chains[h]| && StartsAt(chains[h], i, sym)
        invariant FirstNamed(chains[h][i..], key) == Lookup(chains, key)
        decreases |chains[h]| - i
      {
        if sym.name == key {
          return;
        }
        assert chains[h][i..][1..] == chains[h][i + 1..];
        sym := sym.next;
        i := i + 1;
      }
    }

    method Find(key: string) returns (sym: Symbol?)
      requires Linked() && Found()
      ensures sym == if key in contents then contents[key] else null
    {
      sym := Search(key);
    }

    /** Puts a new symbol in front of its bucket. */
    method Prepend(key: string, order: nat) returns (sym: Symbol)
      requires Linked()
      modifies this`chains, this`nodes, SHash
      ensures Linked() && fresh(sym) && sym.name == key && sym.arg == Arg(0, true) && !sym.ref
      ensures chains == Added(old(chains), sym) && nodes == old(nodes) + {sym}
    {
      var h := Hash1(key);
      sym := new Symbol(key, order);
      sym.next := SHash[h];
      SHash[h] := sym;
      chains, nodes := Added(chains, sym), nodes + {sym};
      assert forall i | 0 < i < |chains[h]| :: chains[h][i] == old(chains)[h][i - 1];
    }

    method Insert(key: string, order: nat) returns (sym: Symbol)
      requires Linked() && Found() && key !in contents
      modifies this`chains, this`nodes, this`contents, SHash
      ensures Linked() && Found() && fresh(sym) && sym.name == key && sym.arg == Arg(0, true) && !sym.ref
      ensures nodes == old(nodes) + {sym} && contents == old(contents)[key := sym]
    {
      ghost var before, held := chains, contents;
      sym := Prepend(key, order);
      contents := contents[key := sym];
      assert Maps(chains, contents) by {
        CreateMaps(before, held, sym);
      }
    }

    /** CreateSymbol, where findsymbol found nothing. */
    method Create(key: string, order: nat) returns (sym: Symbol)
      requires Valid() && key !in entries
      modifies this, SHash
      ensures Valid() && fresh(sym) && nodes == old(nodes) + {sym} && contents == old(contents)[key := sym]
      ensures entries == old(entries)[key := Sym(Arg(0, true), false)]
    {
      sym := Insert(key, order);
      Record(key, sym, old(contents));
    }

    /** The entry of a new symbol. */
    ghost method Record(key: string, sym: Symbol, held: map<string, Symbol>)
      requires key !in held && contents == held[key := sym] && Named(nodes, contents) && entries.Keys == held.Keys
      requires forall name | name in held :: entries[name] == Sym(held[name].arg, held[name].ref)
      modifies this`entries
      ensures Recorded() && entries == old(entries)[key := Sym(sym.arg, sym.ref)]
    {
      entries := entries[key := Sym(sym.arg, sym.ref)];
    }

    /** Writes the fields of the symbol of a name. */
    method Assign(key: string, sym: Symbol, e: Sym)
      requires Recorded() && key in contents && contents[key] == sym
      modifies sym`arg, sym`ref, this`entries
      ensures Recorded() && entries == old(entries)[key := e]
    {
      sym.arg, sym.ref := e.arg, e.ref;
      entries := entries[key := e];
    }

    /** What the table holds under a name, if anything. */
    method Get(key: string) returns (y: Option<Sym>)
      requires Valid()
      ensures y == if key in entries then Some(entries[key]) else None
    {
      var sym := Find(key);
      y := if sym == null then None else Some(Sym(sym.arg, sym.ref));
    }

    /** findsymbol, and CreateSymbol if it finds nothing. */
    method FindOrCreate(key: string, order: nat) returns (sym: Symbol)
      requires Valid()
      modifies this, SHash
      ensures Valid() && key in contents && contents[key] == sym && fresh(nodes - old(nodes))
      ensures entries == if key in old(entries) then old(entries) else old(entries)[key := Sym(Arg(0, true), false)]
    {
      var found := Find(key);
      if found != null {
        return found;
      }
      sym := Create(key, order);
    }

    /** What programlabel, v_equ and pushsymbol do with a name: find its symbol or create it,
        and set its fields. */
    method Put(key: string, e: Sym, order: nat)
      requires Valid()
      modifies this, SHash, nodes
      ensures Valid() && fresh(nodes - old(nodes)) && entries == old(entries)[key := e]
    {
      ghost var before := entries;
      var sym := FindOrCreate(key, order);
      SetTwice(before, entries, key, Sym(Arg(0, true), false), e);
      Assign(key, sym, e);
    }

    /** One bucket of clearrefs. */
    method ClearChain(b: nat)
      requires Linked() && b < SHASHSIZE
      modifies nodes`ref
      ensures forall k | 0 <= k < |chains[b]| :: !chains[b][k].ref
      ensures forall n | n in nodes :: n.ref ==> old(n.ref)
    {
      var sym := SHash[b];
      ghost var j := 0;
      while sym != null
        invariant 0 <= j <= |chains[b]| && StartsAt(chains[b], j, sym)
        invariant forall k | 0 <= k < j :: !chains[b][k].ref
        invariant forall n | n in nodes :: n.ref ==> old(n.ref)
        decreases |chains[b]| - j
      {
        sym.ref := false;
        sym := sym.next;
        j := j + 1;
      }
    }

    method ClearChains()
      requires Linked()
      modifies nodes`ref
      ensures Linked()
      ensures forall b, k | 0 <= b < SHASHSIZE && 0 <= k < |chains[b]| :: !chains[b][k].ref
    {
      var i := 0;
      while i < SHASHSIZE
        invariant 0 <= i <= SHASHSIZE && Linked()
        invariant forall b, k | 0 <= b < i && 0 <= k < |chains[b]| :: !chains[b][k].ref
      {
        ClearChain(i);
        i := i + 1;
      }
    }

    /** clearrefs: through every bucket, along every chain. */
    method Clearrefs()
      requires Valid()
      modifies nodes`ref, this`entries
      ensures Valid()
      ensures entries == map name | name in old(entries) :: old(entries)[name].(ref := false)
    {
      ClearChains();
      AllSeen();
      RecordCleared();
    }

    ghost method RecordCleared()
      requires Named(nodes, contents) && entries.Keys == contents.Keys
      requires forall name | name in contents :: contents[name].arg == entries[name].arg && !contents[name].ref
      modifies this`entries
      ensures Recorded() && entries == map name | name in old(entries) :: old(entries)[name].(ref := false)
    {
      entries := map name | name in entries :: entries[name].(ref := false);
    }

    /** Every symbol under a name is in some chain. */
    lemma AllSeen()
      requires Linked() && Found() && forall b, k | 0 <= b < SHASHSIZE && 0 <= k < |chains[b]| :: !chains[b][k].ref
      ensures forall name | name in contents :: !contents[name].ref
    {
      forall name | name in contents ensures !contents[name].ref {
        assert Lookup(chains, name) == Some(contents[name]);
        FirstNamedIsOne(chains[Hash(name)], name);
      }
    }
  }
}
