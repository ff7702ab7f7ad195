/**
 * The app-config extension of djangocms_navigation/cms_config.py: each app
 * that declares itself navigation-enabled hands over its `navigation_models`,
 * which the extension validates and appends to its registered list.
 *
 * The attribute lookup and the Iterable check become the three shapes the
 * config can take; registered models are represented by their names.
 */
module NavigationConfig {
  import opened Wrappers

  /** What the app config holds under `navigation_models`. */
  datatype NavigationModels = Missing | NotIterable | Models(items: seq<string>)

  /** ImproperlyConfigured with its message. */
  datatype ConfigError = ImproperlyConfigured(message: string)

  const MissingMessage := "cms_config.py must have navigation_models attribute"
  const NotIterableMessage := "Navigation configuration must be a Iterable object"

  /** The registered list after one configure_app call, or the error it raises. */
  datatype Registration = Registered(models: seq<string>) | Refused(error: ConfigError)

  /**
   * The effect of configure_app on the list registered so far: the models of
   * an app are appended after everything registered before, in their order;
   * a missing or non-iterable attribute is refused with its own message.
   */
  function Configure(registered: seq<string>, config: NavigationModels): (r: Registration)
    ensures config.Missing? <==> r == Refused(ImproperlyConfigured(MissingMessage))
    ensures config.NotIterable? <==> r == Refused(ImproperlyConfigured(NotIterableMessage))
    ensures config.Models? <==> r.Registered?
    ensures r.Registered? ==> (|r.models| == |registered| + |config.items| &&
                               r.models[..|registered|] == registered && r.models[|registered|..] == config.items)
  {
    match config
    case Missing => Refused(ImproperlyConfigured(MissingMessage))
    case NotIterable => Refused(ImproperlyConfigured(NotIterableMessage))
    case Models(items) => Registered(registered + items)
  }

  /** The accepted configs, in order, of a run of configure_app calls. */
  function Accepted(configs: seq<NavigationModels>): (models: seq<string>)
  {
    if configs == [] then []
    else
      var last := configs[|configs| - 1];
      Accepted(configs[..|configs| - 1]) + (if last.Models? then last.items else [])
  }

  /** Applies configure_app for each config in turn, skipping the refused ones as their raise leaves the list alone. */
  function ConfigureAll(registered: seq<string>, configs: seq<NavigationModels>): (r: seq<string>)
  {
    if configs == [] then registered
    else
      var earlier := ConfigureAll(registered, configs[..|configs| - 1]);
      match Configure(earlier, configs[|configs| - 1])
      case Registered(models) => models
      case Refused(_) => earlier
  }

  /**
   * Registration keeps every app's models together and in order: after any run
   * of calls the list is the start list followed by the accepted configs' models.
   */
  lemma {:induction false} ConfigureAllAppends(registered: seq<string>, configs: seq<NavigationModels>)
    ensures ConfigureAll(registered, configs) == registered + Accepted(configs)
  {
    if configs != [] {
      var init := configs[..|configs| - 1];
      ConfigureAllAppends(registered, init);
      assert registered + Accepted(init) + (if configs[|configs| - 1].Models? then configs[|configs| - 1].items else []) ==
             registered + Accepted(configs);
    }
  }

  /** navigationCMSExtension. */
  class NavigationCMSExtension {
    var navigationAppsModels: seq<string>

    /** __init__: nothing is registered yet. */
    constructor ()
      ensures navigationAppsModels == []
    {
      navigationAppsModels := [];
    }

    /**
     * configure_app: validates the config and then extends the registered
     * list in place; on either error the raise comes before the extend, so
     * the list is left as it was.
     */
    method ConfigureApp(config: NavigationModels) returns (error: Option<ConfigError>)
      modifies this
      ensures error.None? <==> Configure(old(navigationAppsModels), config).Registered?
      ensures error.None? ==> navigationAppsModels == Configure(old(navigationAppsModels), config).models
      ensures error.Some? ==> Configure(old(navigationAppsModels), config) == Refused(error.value) &&
                              navigationAppsModels == old(navigationAppsModels)
    {
      if !config.Missing? {
        if config.Models? {
          navigationAppsModels := navigationAppsModels + config.items;
          error := None;
        } else {
          error := Some(ImproperlyConfigured(NotIterableMessage));
        }
      } else {
        error := Some(ImproperlyConfigured(MissingMessage));
      }
    }
  }
}
