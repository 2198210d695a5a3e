/**
 * The one piece of decision logic in unregistering a microservice from the exchange: the
 * node's registered microservices are rewritten without the ones whose URL is the spec
 * ref being unregistered, in their original order.
 */
module Registration {

  datatype MSProp = MSProp(name: string, value: string, propType: string, op: string)

  /** A microservice as the node's exchange registration lists it. */
  datatype RegisteredMicroservice =
    RegisteredMicroservice(url: string, properties: seq<MSProp>, numAgreements: int, policy: string)

  /** The registrations other than those of `specRef`, in their original order. */
  function WithoutUrl(registered: seq<RegisteredMicroservice>, specRef: string): seq<RegisteredMicroservice>
    decreases |registered|
  {
    if |registered| == 0 then []
    else
      var last := registered[|registered| - 1];
      WithoutUrl(registered[..|registered| - 1], specRef) + (if last.url != specRef then [last] else [])
  }

  /** The loop that builds the registration list sent back to the exchange. */
  method RemoveRegistration(registered: seq<RegisteredMicroservice>, specRef: string)
    returns (msPut: seq<RegisteredMicroservice>)
    ensures msPut == WithoutUrl(registered, specRef)
  {
    msPut := [];
    for i := 0 to |registered|
      invariant msPut == WithoutUrl(registered[..i], specRef)
    {
      assert registered[..i + 1][..i] == registered[..i];
      if registered[i].url != specRef {
        msPut := msPut + [registered[i]];
      }
    }
    assert registered[..|registered|] == registered;
  }

  /**
   * Exactly the registrations of `specRef` are dropped: none is left, and every other one
   * is kept, as often as it occurs.
   */
  lemma {:induction false} WithoutUrlDropsExactly(registered: seq<RegisteredMicroservice>, specRef: string)
    ensures forall i :: 0 <= i < |WithoutUrl(registered, specRef)| ==> WithoutUrl(registered, specRef)[i].url != specRef
    ensures forall m: RegisteredMicroservice :: m.url != specRef ==> multiset(WithoutUrl(registered, specRef))[m] == multiset(registered)[m]
    decreases |registered|
  {
    if |registered| > 0 {
      var init, last := registered[..|registered| - 1], registered[|registered| - 1];
      WithoutUrlDropsExactly(init, specRef);
      assert registered == init + [last];
      if last.url != specRef {
        assert WithoutUrl(registered, specRef) == WithoutUrl(init, specRef) + [last];
      } else {
        assert WithoutUrl(registered, specRef) == WithoutUrl(init, specRef);
      }
    }
  }

  /** Order is kept: filtering a concatenation filters each part. */
  lemma {:induction false} WithoutUrlKeepsOrder(front: seq<RegisteredMicroservice>, back: seq<RegisteredMicroservice>,
                                                specRef: string)
    ensures WithoutUrl(front + back, specRef) == WithoutUrl(front, specRef) + WithoutUrl(back, specRef)
    decreases |back|
  {
    if |back| == 0 {
      assert front + back == front;
    } else {
      var all := front + back;
      var init := back[..|back| - 1];
      assert all[..|all| - 1] == front + init;
      assert all[|all| - 1] == back[|back| - 1];
      WithoutUrlKeepsOrder(front, init, specRef);
    }
  }

  /** A list without registrations of `specRef` is sent back unchanged, so removing twice is removing once. */
  lemma {:induction false} WithoutUrlUnchanged(registered: seq<RegisteredMicroservice>, specRef: string)
    requires forall i :: 0 <= i < |registered| ==> registered[i].url != specRef
    ensures WithoutUrl(registered, specRef) == registered
    decreases |registered|
  {
    if |registered| > 0 {
      WithoutUrlUnchanged(registered[..|registered| - 1], specRef);
    }
  }

  lemma WithoutUrlIdempotent(registered: seq<RegisteredMicroservice>, specRef: string)
    ensures WithoutUrl(WithoutUrl(registered, specRef), specRef) == WithoutUrl(registered, specRef)
  {
    WithoutUrlDropsExactly(registered, specRef);
    WithoutUrlUnchanged(WithoutUrl(registered, specRef), specRef);
  }
}
