/**
 * The `ProxyProvider` trait (services/proxy/mod.rs:45-50): the boxed provider `get_provider`
 * returns is streamed through its own implementation, chosen by its kind.
 */
module Dispatch {
  import opened Wrappers
  import Json
  import opened Proxy
  import Driver
  import AnthropicStream
  import OpenAIStream

  /** `provider.stream(window, body)` on the provider `get_provider` built. */
  function ProviderStream(p: Provider, parse: Json.Parser, reply: Driver.Reply, w: Window): (r: Driver.Run)
    ensures w.log <= r.window.log
  {
    match p.kind
    case Anthropic => AnthropicStream.Stream(parse, p.apiKey, reply, w)
    case OpenAI => OpenAIStream.Stream(parse, p.apiKey, reply, w)
  }

  /**
   * Whatever provider is streamed: the stream returns `Ok` exactly when it emitted `End`, and
   * `End` is the last event it emitted.
   */
  lemma ProviderTerminalOnce(p: Provider, parse: Json.Parser, reply: Driver.Reply, w: Window)
    ensures var r := ProviderStream(p, parse, reply, w);
            && (r.outcome.Pass? <==> End in Driver.Added(w, r))
            && Driver.EndOnlyLast(Driver.Added(w, r))
  {
    match p.kind
    case Anthropic =>
      Driver.TerminalOnce("Anthropic", AnthropicStream.Decoder(parse), p.apiKey, reply, w);
    case OpenAI =>
      Driver.TerminalOnce("OpenAI", OpenAIStream.Decoder(parse), OpenAIStream.Credential(p.apiKey), reply, w);
  }

  /**
   * A provider name and environment that `get_provider` accepts stream through the provider
   * the name selects, holding the key the name's variable holds.
   */
  lemma ProviderSelected(name: string, env: map<string, string>, parse: Json.Parser, reply: Driver.Reply, w: Window)
    requires GetProvider(name, env).Success?
    ensures var p := GetProvider(name, env).value;
            && (name == "anthropic" ==> ProviderStream(p, parse, reply, w) == AnthropicStream.Stream(parse, env["ANTHROPIC_API_KEY"], reply, w))
            && (name == "openai" ==> ProviderStream(p, parse, reply, w) == OpenAIStream.Stream(parse, env["OPENAI_API_KEY"], reply, w))
  {
  }
}
