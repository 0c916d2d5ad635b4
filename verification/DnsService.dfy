// The name server as a client meets it, over runs of the portal and of the server.

module DnsService {
  import opened Basics
  import opened Words
  import opened ClientAcl
  import opened PortalModel
  import opened PortalRuns
  import opened DnsAccess
  import opened DnsKey
  import opened DnsServer
  import opened DnsRuns
  import opened DnsReplies
  import DnsCache

  // After every run of the portal in step and every run of the server: a query from an address
  // that no session with a second left answers for is sent to the portal. Any other gets an
  // answer a resolver gave before, unexpired and under its own id, if one is kept; else what a
  // resolver answers now, byte for byte; and else the news that none did.
  lemma {:induction false} EveryReply(os: seq<Occurrence>, ip: Ip, lookup: Option<Mac>, env: Env,
                                      s: seq<DnsCache.Entry>, ts: seq<Turn>, t: Turn, portal: Address)
    requires InStep(Booted(), os) && Empty(s) && Orderly(ts) && Clock(ts) <= t.now
    requires IsQuery(t.packet) && |t.packet| <= 512
    requires t.authenticated == Authenticates(Run(Booted(), os), ip, lookup, env)
    ensures var cache := After(s, ts, portal);
      var r := Serve(cache, t, portal);
      if !HasTime(Run(Booted(), os), ip, lookup, env.now) then
        r.slots == cache && (AsksOne(t.packet) ==> SentToPortal(r.reply, t.packet, portal))
      else if Kept(cache, KeyOf(t.packet), t.now) then
        exists u :: AnsweredBefore(u, ts, t) && UnderIdOf(r.reply, u.upstream.value, t.packet)
      else if t.upstream.Some? then r.reply == t.upstream
      else AsksOne(t.packet) ==> AnswersWith(r.reply, t.packet, 2, [])
  {
    var cache := After(s, ts, portal);
    RunIsCoherent(os);
    AuthenticatesIff(Run(Booted(), os), ip, lookup, env);
    if t.authenticated {
      MissReplies(cache, t, portal);
      if Kept(cache, KeyOf(t.packet), t.now) {
        var u := HitReplies(s, ts, t, portal);
      }
    } else if AsksOne(t.packet) {
      CaptiveReplies(cache, t, portal);
    }
  }
}
