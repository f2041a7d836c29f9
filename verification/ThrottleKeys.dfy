/** The counters' keys as the strings the attempts table is indexed by, and how
    a string is told apart again when an entry is weighed for eviction. */
module ThrottleKeys {
  import opened Common
  import opened Throttle

  const USER: string := "user:"
  const MARK: string := ":user:"

  /** Addresses and networks are digits, hex letters and punctuation. */
  predicate AddressText(s: string) {
    forall i | 0 <= i < |s| :: s[i] != 'u'
  }

  predicate Encodable(k: Key) {
    match k
    case Pair(address, _) => AddressText(address)
    case Network(network) => AddressText(network)
    case Name(_) => true
  }

  function Encode(k: Key): string {
    match k
    case Pair(address, name) => "ip:" + address + ":" + USER + name
    case Network(network) => "ip:" + network
    case Name(name) => USER + name
  }

  predicate MarkAt(s: string, i: nat) {
    i + |MARK| <= |s| && s[i..i + |MARK|] == MARK
  }

  /** The first place `:user:` stands, from `i` on. */
  function FindMark(s: string, i: nat): (r: Option<nat>)
    requires i <= |s|
    ensures r.Some? ==> MarkAt(s, r.value) && i <= r.value && forall j: nat | i <= j < r.value :: !MarkAt(s, j)
    ensures r.None? ==> forall j: nat | i <= j :: !MarkAt(s, j)
    decreases |s| - i
  {
    if MarkAt(s, i) then Some(i) else if i == |s| then None else FindMark(s, i + 1)
  }

  /** How an entry's key is read: a name, else a pair whose name key follows the first mark, else a network. */
  function Decode(s: string): Key
    requires |s| >= 3
  {
    if |s| >= |USER| && s[..|USER|] == USER then Name(s[|USER|..])
    else match FindMark(s, 0)
      case None => Network(s[3..])
      case Some(at) => if at >= 3 then Pair(s[3..at], s[at + |MARK|..]) else Network(s[3..])
  }

  /** The `u` of a mark cannot lie in the address, so the first mark is the separator. */
  lemma FirstMark(address: string, rest: string, i: nat)
    requires AddressText(address) && MarkAt("ip:" + address + rest, i)
    requires rest == "" || rest[0] == ':'
    ensures i >= 3 + |address|
  {
    var s := "ip:" + address + rest;
    assert s[i..i + |MARK|][1] == s[i + 1] == 'u';
    forall j | 0 <= j <= 3 + |address| && j < |s| ensures s[j] != 'u' {
      if j < 3 {
        assert s[j] == "ip:"[j];
      } else if j < 3 + |address| {
        assert s[j] == address[j - 3];
      } else {
        assert s[j] == rest[0];
      }
    }
  }

  lemma NetworkHasNoMark(network: string, i: nat)
    requires AddressText(network)
    ensures !MarkAt("ip:" + network, i)
  {
    if MarkAt("ip:" + network, i) {
      assert "ip:" + network == "ip:" + network + "";
      FirstMark(network, "", i);
    }
  }

  /** Keys survive the string table: distinct counters never share an entry. */
  lemma EncodingRoundTrip(k: Key)
    requires Encodable(k)
    ensures |Encode(k)| >= 3 && Decode(Encode(k)) == k
  {
    var s := Encode(k);
    match k
    case Name(name) =>
    case Network(network) =>
      assert s[0] == 'i' && s[3..] == network;
      forall j: nat ensures !MarkAt(s, j) {
        NetworkHasNoMark(network, j);
      }
    case Pair(address, name) =>
      var rest := MARK + name;
      assert s == "ip:" + address + rest && s[0] == 'i';
      var at := 3 + |address|;
      assert s[at..at + |MARK|] == MARK;
      assert MarkAt(s, at);
      var found := FindMark(s, 0);
      FirstMark(address, rest, found.value);
      assert found.value == at;
      assert s[3..at] == address && s[at + |MARK|..] == name;
  }

  lemma EncodingIsInjective(j: Key, k: Key)
    requires Encodable(j) && Encodable(k) && Encode(j) == Encode(k)
    ensures j == k
  {
    EncodingRoundTrip(j);
    EncodingRoundTrip(k);
  }
}
