/** `local_or_global` of yakusoku/modules/waifu/utils.py: a per-chat setting
    overrides the user's global one unless it is unset. The key function is
    applied by the caller; `Mentionable` is the one setting both kinds of
    property carry. */
module WaifuUtils {

  import opened Wrappers
  import WaifuFactory

  function LocalOrGlobal<T>(local: Option<T>, global: Option<T>): (r: Option<T>)
    ensures local.Some? ==> r == local
    ensures local.None? ==> r == global
  {
    if local.None? then global else local
  }

  /** Whether a member may be mentioned in a chat: the chat's setting when it
      has one, otherwise the user's global setting (false when never set). */
  function Mentionable(f: WaifuFactory.WaifuFactory, chat: int, member: int): (r: Option<bool>)
    reads f
    ensures r.Some?
    ensures f.GetLocalProperty(chat, member).mentionable.Some? ==> r == f.GetLocalProperty(chat, member).mentionable
    ensures f.GetLocalProperty(chat, member).mentionable.None? ==> r == Some(f.GetGlobalProperty(member).mentionable)
  {
    LocalOrGlobal(f.GetLocalProperty(chat, member).mentionable, Some(f.GetGlobalProperty(member).mentionable))
  }

  /** A local `false` wins over a global `true`: the override is not a
      truthiness test. */
  lemma LocalFalseOverrides(global: Option<bool>)
    ensures LocalOrGlobal(Some(false), global) == Some(false)
  {
  }

  /** A member never configured anywhere is not mentionable. */
  lemma DefaultNotMentionable(f: WaifuFactory.WaifuFactory, chat: int, member: int)
    requires member !in f.LocalTable(chat) && member !in f.globalProperties
    ensures Mentionable(f, chat, member) == Some(false)
  {
  }
}
