/** Which connections the browser reconnect code selects: the prefixes it reads and the membership test. */
module BrowserReconnect {
  import opened Common
  import opened Ipv4

  datatype Cidr = Cidr(network: Word, mask: Word)

  /** The value denotes a prefix: an address, a slash, and a length up to 32. `inetPton` and `stoi` are the platform's
      address and integer parsers. */
  predicate Denotes(inetPton: string -> Option<Word>, stoi: string -> Option<int>, value: string,
                    address: Word, length: PrefixLength)
  {
    '/' in value && inetPton(Before(value, '/')) == Some(address) && stoi(After(value, '/')) == Some(length)
  }

  predicate Matches(cidrs: seq<Cidr>, address: Word)
  {
    exists c :: c in cidrs && And(address, c.mask) == c.network
  }

  /** The entries that stand for the readable values, in order. */
  function Entries(inetPton: string -> Option<Word>, stoi: string -> Option<int>, values: seq<string>): seq<Cidr>
  {
    if values == [] then [] else
      var front, value := values[..|values| - 1], values[|values| - 1];
      Entries(inetPton, stoi, front) +
        if '/' !in value then [] else
          var address, length := inetPton(Before(value, '/')), stoi(After(value, '/'));
          if address.None? || length.None? || length.value < 0 || length.value > 32 then []
          else [Cidr(Network(address.value, length.value), Mask(length.value))]
  }

  method ParseCidrs(inetPton: string -> Option<Word>, stoi: string -> Option<int>, values: seq<string>)
    returns (cidrs: seq<Cidr>)
    ensures cidrs == Entries(inetPton, stoi, values)
  {
    cidrs := [];
    for i := 0 to |values|
      invariant cidrs == Entries(inetPton, stoi, values[..i])
    {
      var value := values[i];
      assert values[..i + 1][..i] == values[..i];
      if '/' !in value {
        continue;
      }
      var address := inetPton(Before(value, '/'));
      if address.None? {
        continue;
      }
      var length := stoi(After(value, '/'));
      if length.None? || length.value < 0 || length.value > 32 {
        continue;
      }
      cidrs := cidrs + [Cidr(Network(address.value, length.value), Mask(length.value))];
    }
    assert values[..|values|] == values;
  }

  lemma {:induction false} EntryOfValue(inetPton: string -> Option<Word>, stoi: string -> Option<int>,
      values: seq<string>, c: Cidr)
    ensures c in Entries(inetPton, stoi, values) <==>
            exists value, a, n ::
              value in values && Denotes(inetPton, stoi, value, a, n) && c == Cidr(Network(a, n), Mask(n))
  {
    if values != [] {
      var front, last := values[..|values| - 1], values[|values| - 1];
      EntryOfValue(inetPton, stoi, front, c);
      assert values == front + [last];
      assert forall v :: v in values <==> v in front || v == last;
      var address, length := inetPton(Before(last, '/')), stoi(After(last, '/'));
      if '/' in last && address.Some? && length.Some? && 0 <= length.value <= 32 {
        assert Denotes(inetPton, stoi, last, address.value, length.value);
      }
    }
  }

  /** An address is selected exactly when it lies in the block of some value that can be read; values that cannot be
      read, or whose length is out of range, select nothing, and host bits in the text do not matter. */
  lemma SelectedExactly(inetPton: string -> Option<Word>, stoi: string -> Option<int>, values: seq<string>,
      address: Word)
    ensures Matches(Entries(inetPton, stoi, values), address)
            <==> exists value, a, n :: value in values && Denotes(inetPton, stoi, value, a, n) && InBlock(Network(a,
                n), n, address)
  {
    if c :| c in Entries(inetPton, stoi, values) && And(address, c.mask) == c.network {
      EntryOfValue(inetPton, stoi, values, c);
      var value, a, n :| value in values && Denotes(inetPton, stoi, value, a, n) && c == Cidr(Network(a, n), Mask(n));
      MaskingIsCanonical(a, n);
      MaskedMembershipIsInterval(Network(a, n), n, address);
    }
    if value, a, n :| value in values && Denotes(inetPton, stoi, value, a, n) && InBlock(Network(a, n), n, address) {
      EntryOfValue(inetPton, stoi, values, Cidr(Network(a, n), Mask(n)));
      MaskingIsCanonical(a, n);
      MaskedMembershipIsInterval(Network(a, n), n, address);
    }
  }
}
