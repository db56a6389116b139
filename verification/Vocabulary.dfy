/** What a packet is made of (`vocabulary.py`), as far as resolving one goes. */
module Vocabulary {
  import opened Composition
  import opened Outcomes

  datatype Device = CPU | AMD | NVIDIA

  datatype PacketDef = PacketDef(
    skills: seq<string>, packets: seq<string>, env: seq<(string, string)>,
    tools: seq<string>, agents: seq<string>, overlays: seq<string>, device: Option<Device>)

  function ComposesOf(defs: map<string, PacketDef>): Composes {
    map key | key in defs :: defs[key].packets
  }
}
