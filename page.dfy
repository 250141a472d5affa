/**
 The page (App): the three components mounted together with the page's
 configuration, and one session driven through them.
 */
module Page {
  import LiveCounter
  import DelayedCta
  import WistiaPlayer

  const WistiaVideoId: string := "xp7xapsblr"
  const CheckoutUrl: string := "https://pay.cakto.com.br/gyoufzw_751112"
  /** 37 minutes and 40 seconds. */
  const DelaySeconds: int := 2260

  /** The page's configuration embeds its video and waits 2260000 ms before the offer. */
  lemma PageConfiguration()
    ensures WistiaPlayer.Configured(WistiaVideoId)
    ensures DelayedCta.TimeoutMs(DelaySeconds) == 2260000
  {
  }

  /**
   With the page's delay and only time passing, the offer is absent after 2259 s
   and present after 2260 s.
   */
  lemma OfferAppearsAtDelay(wait: nat)
    ensures DelayedCta.Run(DelayedCta.Mount(DelaySeconds), [DelayedCta.TimePasses(wait)]).visible <==>
              wait >= 2260000
  {
    var events := [DelayedCta.TimePasses(wait)];
    assert DelayedCta.OnlyTime(events);
    assert DelayedCta.ElapsedMs(events) == wait by {
      assert events[..0] == [];
    }
    DelayedCta.RevealTiming(DelaySeconds, events);
  }

  /**
   One session: mount, the swatch loads, the counter ticks, the delay runs out,
   and the page is torn down.
   */
  method Session(changes: seq<int>)
    requires LiveCounter.AllValid(changes)
  {
    var counter := new LiveCounter.Counter();
    var cta := new DelayedCta.Cta(DelaySeconds, CheckoutUrl);
    var player := new WistiaPlayer.Player(WistiaVideoId);
    assert cta.Render() == DelayedCta.Placeholder;
    assert player.Render().Embed? && player.Render().swatchOpacity == 0;

    player.OnLoad();
    assert player.Render().swatchOpacity == 1;
    assert cta.Render() == DelayedCta.Placeholder;

    var i := 0;
    while i < |changes|
      invariant 0 <= i <= |changes|
      invariant counter.Valid() && counter.intervalActive
      invariant cta.State() == DelayedCta.Mount(DelaySeconds)
      invariant player.swatchOpacity == 1
    {
      counter.Tick(changes[i]);
      i := i + 1;
    }
    assert LiveCounter.InBand(counter.count);

    cta.Elapse(2259000);
    assert cta.Render() == DelayedCta.Placeholder;
    cta.Elapse(1000);
    assert cta.Render() == DelayedCta.Offer(CheckoutUrl);
    cta.Elapse(60000);
    assert cta.Render() == DelayedCta.Offer(CheckoutUrl);

    counter.Unmount();
    cta.Unmount();
    player.Unmount();
    var shown := counter.count;
    counter.Tick(8);
    assert counter.count == shown;
    player.OnLoad();
    assert player.swatchOpacity == 1;
  }
}
