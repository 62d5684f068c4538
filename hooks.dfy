/**
 The part of the WordPress hook registry the extension touches: which of its
 callbacks are registered on which hook. Priorities, argument counts and the
 moment a hook fires are not modelled.
 */
module Hooks {

  /** The extension's methods that it hands to WordPress as `array( $this, '...' )`. */
  datatype Callback = SetTargetDate | AdvanceMinical | ModifyListQuery | AmendListQuery

  /** One callback registered on one hook. */
  datatype Registration = Registration(hook: string, callback: Callback)

  const WpLoaded := "wp_loaded"
  const WidgetDisplayCallback := "widget_display_callback"
  const BeforeGetTemplatePart := "tribe_before_get_template_part"
  const ParseQuery := "parse_query"

  class Registry {
    var entries: set<Registration>

    /** A registry with nothing registered. */
    constructor ()
      ensures entries == {}
    {
      entries := {};
    }

    predicate IsRegistered(hook: string, callback: Callback)
      reads this
    {
      Registration(hook, callback) in entries
    }

    /**
     `add_action` / `add_filter` (the first delegates to the second): adding a
     callback that is already registered changes nothing.
     */
    method Add(hook: string, callback: Callback)
      modifies this
      ensures entries == old(entries) + {Registration(hook, callback)}
    {
      entries := entries + {Registration(hook, callback)};
    }

    /** `remove_action`: the callback is no longer registered on that hook; every other registration stays. */
    method Remove(hook: string, callback: Callback)
      modifies this
      ensures entries == old(entries) - {Registration(hook, callback)}
    {
      entries := entries - {Registration(hook, callback)};
    }
  }
}
